/**
 * Directed graphs over issue numbers. An edge (a, b) says that a is a parent of b, or that a blocks
 * b. Both relations are kept free of cycles by walks that the code runs before it repoints the
 * incoming edges of one issue.
 */
module IssueGraph {
  import opened Prelude

  type Graph = set<(int, int)>

  // ---------------------------------------------------------------- reachability

  ghost predicate Reach(g: Graph, a: int, b: int, n: nat)
    decreases n
  {
    if n == 0 then a == b else exists c :: Reach(g, a, c, n - 1) && (c, b) in g
  }

  ghost predicate Reachable(g: Graph, a: int, b: int) {
    exists n: nat :: Reach(g, a, b, n)
  }

  /** b is a proper descendant of a: at least one edge away. */
  ghost predicate Below(g: Graph, a: int, b: int) {
    exists c :: Reachable(g, a, c) && (c, b) in g
  }

  ghost predicate Acyclic(g: Graph) {
    forall x :: !Below(g, x, x)
  }

  lemma ReachSelf(g: Graph, a: int)
    ensures Reachable(g, a, a)
  {
    assert Reach(g, a, a, 0);
  }

  lemma ReachEdge(g: Graph, a: int, b: int, c: int)
    requires Reachable(g, a, b) && (b, c) in g
    ensures Reachable(g, a, c)
  {
    var n: nat :| Reach(g, a, b, n);
    assert Reach(g, a, c, n + 1);
  }

  lemma BelowIsReachable(g: Graph, a: int, b: int)
    ensures Below(g, a, b) ==> Reachable(g, a, b)
    ensures Reachable(g, a, b) && a != b ==> Below(g, a, b)
  {
    if c :| Reachable(g, a, c) && (c, b) in g { ReachEdge(g, a, c, b); }
    if n: nat :| Reach(g, a, b, n) {
      if n > 0 {
        var c :| Reach(g, a, c, n - 1) && (c, b) in g;
        assert Reachable(g, a, c);
      }
    }
  }

  lemma {:induction false} ReachTransitive(g: Graph, a: int, b: int, c: int, n: nat)
    requires Reachable(g, a, b) && Reach(g, b, c, n)
    ensures Reachable(g, a, c)
    decreases n
  {
    if n > 0 {
      var d :| Reach(g, b, d, n - 1) && (d, c) in g;
      ReachTransitive(g, a, b, d, n - 1);
      ReachEdge(g, a, d, c);
    }
  }

  lemma {:induction false} ClosedHolds(g: Graph, s: set<int>, a: int, b: int, n: nat)
    requires a in s && Reach(g, a, b, n)
    requires forall x, y :: x in s && (x, y) in g ==> y in s
    ensures b in s
    decreases n
  {
    if n > 0 {
      var c :| Reach(g, a, c, n - 1) && (c, b) in g;
      ClosedHolds(g, s, a, c, n - 1);
    }
  }

  // ---------------------------------------------------------------- repointing one issue

  /** The graph after `node`'s incoming edges are replaced by edges from `sources`. */
  ghost function Repoint(g: Graph, node: int, sources: set<int>): Graph {
    (set e | e in g && e.1 != node) + (set s | s in sources :: (s, node))
  }

  lemma RepointEdges(g: Graph, node: int, sources: set<int>, a: int, b: int)
    ensures (a, b) in Repoint(g, node, sources) <==>
            if b == node then a in sources else (a, b) in g
  {
  }

  // From the node itself the new graph reaches nothing new ...
  lemma {:induction false} FromNode(g: Graph, node: int, sources: set<int>, b: int, n: nat)
    requires Reach(Repoint(g, node, sources), node, b, n)
    ensures Reachable(g, node, b)
    decreases n
  {
    if n == 0 || b == node {
      ReachSelf(g, node);
    } else {
      var g' := Repoint(g, node, sources);
      var c :| Reach(g', node, c, n - 1) && (c, b) in g';
      RepointEdges(g, node, sources, c, b);
      FromNode(g, node, sources, c, n - 1);
      ReachEdge(g, node, c, b);
    }
  }

  // ... and loses nothing.
  lemma {:induction false} FromNodeKept(g: Graph, node: int, sources: set<int>, b: int, n: nat)
    requires Reach(g, node, b, n)
    ensures Reachable(Repoint(g, node, sources), node, b)
    decreases n
  {
    var g' := Repoint(g, node, sources);
    if n == 0 || b == node {
      ReachSelf(g', node);
    } else {
      var c :| Reach(g, node, c, n - 1) && (c, b) in g;
      RepointEdges(g, node, sources, c, b);
      FromNodeKept(g, node, sources, c, n - 1);
      ReachEdge(g', node, c, b);
    }
  }

  // A path in the new graph is an old path or passes through the node.
  lemma {:induction false} OldOrThrough(g: Graph, node: int, sources: set<int>, a: int, b: int, n: nat)
    requires Reach(Repoint(g, node, sources), a, b, n)
    ensures var g' := Repoint(g, node, sources);
            Reachable(g, a, b) || (Reachable(g', a, node) && Reachable(g', node, b))
    decreases n
  {
    var g' := Repoint(g, node, sources);
    if n == 0 {
      ReachSelf(g, a);
    } else {
      assert Reachable(g', a, b);
      if b == node {
        ReachSelf(g', node);
      } else {
        var c :| Reach(g', a, c, n - 1) && (c, b) in g';
        RepointEdges(g, node, sources, c, b);
        OldOrThrough(g, node, sources, a, c, n - 1);
        if Reachable(g, a, c) { ReachEdge(g, a, c, b); } else { ReachEdge(g', node, c, b); }
      }
    }
  }

  // If the new graph leads back to the node, then some source was already below it.
  lemma NodeCycle(g: Graph, node: int, sources: set<int>)
    requires Below(Repoint(g, node, sources), node, node)
    ensures exists s :: s in sources && Reachable(g, node, s)
  {
    var g' := Repoint(g, node, sources);
    var s :| Reachable(g', node, s) && (s, node) in g';
    RepointEdges(g, node, sources, s, node);
    var n: nat :| Reach(g', node, s, n);
    FromNode(g, node, sources, s, n);
  }

  lemma CycleThroughNode(g: Graph, node: int, sources: set<int>, x: int)
    requires Acyclic(g) && Below(Repoint(g, node, sources), x, x)
    ensures Below(Repoint(g, node, sources), node, node)
  {
    var g' := Repoint(g, node, sources);
    if x != node {
      var c :| Reachable(g', x, c) && (c, x) in g';
      RepointEdges(g, node, sources, c, x);
      var n: nat :| Reach(g', x, c, n);
      OldOrThrough(g, node, sources, x, c, n);
      assert !Below(g, x, x);
      BelowIsReachable(g', x, node);
      var d :| Reachable(g', x, d) && (d, node) in g';
      ReachEdge(g', node, c, x);
      var m: nat :| Reach(g', x, d, m);
      ReachTransitive(g', node, x, d, m);
    }
  }

  /**
   * Repointing keeps an acyclic graph acyclic if and only if none of the new sources is the node
   * itself or reachable from it.
   */
  lemma RepointAcyclic(g: Graph, node: int, sources: set<int>)
    requires Acyclic(g)
    ensures Acyclic(Repoint(g, node, sources)) <==> forall s :: s in sources ==> !Reachable(g, node, s)
  {
    var g' := Repoint(g, node, sources);
    if x :| Below(g', x, x) {
      CycleThroughNode(g, node, sources, x);
      NodeCycle(g, node, sources);
    }
    if s :| s in sources && Reachable(g, node, s) {
      var n: nat :| Reach(g, node, s, n);
      FromNodeKept(g, node, sources, s, n);
      RepointEdges(g, node, sources, s, node);
      assert Below(g', node, node);
    }
  }

  lemma SubgraphBelow(small: Graph, big: Graph, x: int, y: int)
    requires small <= big && Below(small, x, y)
    ensures Below(big, x, y)
  {
    var c :| Reachable(small, x, c) && (c, y) in small;
    var n: nat :| Reach(small, x, c, n);
    SubgraphReach(small, big, x, c, n);
    assert Reachable(big, x, c);
  }

  lemma SubgraphAcyclic(small: Graph, big: Graph)
    requires small <= big && Acyclic(big)
    ensures Acyclic(small)
  {
    if x :| Below(small, x, x) { SubgraphBelow(small, big, x, x); }
  }

  lemma {:induction false} SubgraphReach(small: Graph, big: Graph, a: int, b: int, n: nat)
    requires small <= big && Reach(small, a, b, n)
    ensures Reach(big, a, b, n)
    decreases n
  {
    if n > 0 {
      var c :| Reach(small, a, c, n - 1) && (c, b) in small;
      SubgraphReach(small, big, a, c, n - 1);
    }
  }

  // ---------------------------------------------------------------- the walk down

  const MAX_NODES := 10000

  // The children map of the graph, as `attach` builds it.
  ghost predicate KidsOf(kids: map<int, seq<int>>, g: Graph) {
    forall a, b :: (a, b) in g <==> a in kids && b in kids[a]
  }

  function Elements(s: seq<int>): (r: set<int>)
    ensures forall x :: x in r <==> x in s
  {
    set x | x in s
  }

  predicate Distinct(s: seq<int>) {
    forall i, j :: 0 <= i < j < |s| ==> s[i] != s[j]
  }

  lemma {:induction false} DistinctSize(s: seq<int>)
    requires Distinct(s)
    ensures |Elements(s)| == |s|
  {
    if s != [] {
      var rest := s[..|s| - 1];
      DistinctSize(rest);
      assert Elements(s) == Elements(rest) + {s[|s| - 1]};
    }
  }

  /** The proper descendants of `root`, the root itself left out even if the graph has a cycle. */
  ghost function Descendants(g: Graph, root: int): (r: set<int>)
    ensures forall x :: x in r <==> x != root && Below(g, root, x)
  {
    var r := set e | e in g && e.1 != root && Below(g, root, e.1) :: e.1;
    assert forall x :: x != root && Below(g, root, x) ==> exists c :: (c, x) in g;
    assert forall x :: x != root && Below(g, root, x) ==> x in r;
    r
  }

  // What the walk knows: `seen` came from the root, and all but `pending` have been expanded.
  ghost predicate Walked(g: Graph, root: int, seen: set<int>, pending: set<int>) {
    && root in seen && pending <= seen
    && (forall x :: x in seen ==> Reachable(g, root, x))
    && (forall x, y :: x in seen && x !in pending && (x, y) in g ==> y in seen)
  }

  /**
   * `descendants`: each proper descendant exactly once and nothing else, on any graph; the walk
   * gives up exactly when there are MAX_NODES descendants or more.
   */
  method DescendantsWalk(kids: map<int, seq<int>>, root: int, ghost g: Graph) returns (order: seq<int>, truncated: bool)
    requires KidsOf(kids, g)
    ensures Distinct(order) && Elements(order) <= Descendants(g, root)
    ensures !truncated ==> Elements(order) == Descendants(g, root)
    ensures truncated <==> |Descendants(g, root)| >= MAX_NODES
  {
    WalkBegins(g, root);
    hide Walked, Distinct, KidsOf, Reachable, Below, Descendants;
    var seen, pending := {root}, [root];
    order := [];
    while pending != []
      invariant Walked(g, root, seen, Elements(pending))
      invariant Distinct(order) && seen == {root} + Elements(order) && root !in order
      invariant |order| < MAX_NODES
      decreases MAX_NODES - |order|, |pending|
    {
      var node := pending[|pending| - 1];
      assert pending == pending[..|pending| - 1] + [node];
      pending := pending[..|pending| - 1];
      var next := if node in kids then kids[node] else [];
      var i := 0;
      ghost var before := |order|;
      ghost var left := |pending|;
      Popped(g, root, seen, pending, node);
      NextAre(kids, g, node, next);
      while i < |next|
        invariant 0 <= i <= |next|
        invariant Walked(g, root, seen, Elements(pending) + {node})
        invariant forall j :: 0 <= j < i ==> next[j] in seen
        invariant Distinct(order) && seen == {root} + Elements(order) && root !in order
        invariant before <= |order| < MAX_NODES
        invariant |order| == before ==> |pending| == left
      {
        var child := next[i];
        if child !in seen {
          WalkedMore(g, root, seen, pending, node, child);
          DistinctMore(order, child);
          seen := seen + {child};
          order := order + [child];
          pending := pending + [child];
          if |order| >= MAX_NODES {
            WalkedIsReachable(g, root, seen, Elements(pending) + {node});
            WalkedSound(g, root, seen, order);
            DistinctSize(order);
            SubsetSize(Elements(order), Descendants(g, root));
            return order, true;
          }
        }
        i := i + 1;
      }
      WalkedNode(g, root, seen, pending, node, next);
    }
    assert Elements(pending) == {};
    WalkedIsReachable(g, root, seen, {});
    WalkedSound(g, root, seen, order);
    WalkedComplete(g, root, seen);
    RootIsNoDescendant(g, root);
    assert Elements(order) == Descendants(g, root);
    DistinctSize(order);
    truncated := false;
  }

  lemma WalkBegins(g: Graph, root: int)
    ensures Walked(g, root, {root}, Elements([root])) && Distinct([])
  {
    ReachSelf(g, root);
  }

  // The last pending node, taken off.
  lemma Popped(g: Graph, root: int, seen: set<int>, pending: seq<int>, node: int)
    requires Walked(g, root, seen, Elements(pending + [node]))
    ensures Walked(g, root, seen, Elements(pending) + {node})
  {
    assert Elements(pending + [node]) == Elements(pending) + {node};
  }

  lemma NextAre(kids: map<int, seq<int>>, g: Graph, node: int, next: seq<int>)
    requires KidsOf(kids, g) && next == if node in kids then kids[node] else []
    ensures forall y :: (node, y) in g <==> y in next
  {
  }

  lemma DistinctMore(order: seq<int>, x: int)
    requires Distinct(order) && x !in order
    ensures Distinct(order + [x])
  {
  }

  lemma WalkedIsReachable(g: Graph, root: int, seen: set<int>, pending: set<int>)
    requires Walked(g, root, seen, pending)
    ensures forall x :: x in seen ==> Reachable(g, root, x)
  {
  }

  lemma RootIsNoDescendant(g: Graph, root: int)
    ensures root !in Descendants(g, root)
  {
  }

  lemma WalkedMore(g: Graph, root: int, seen: set<int>, pending: seq<int>, node: int, child: int)
    requires Walked(g, root, seen, Elements(pending) + {node}) && (node, child) in g
    ensures Walked(g, root, seen + {child}, Elements(pending + [child]) + {node})
  {
    ReachEdge(g, root, node, child);
    assert Elements(pending + [child]) == Elements(pending) + {child};
  }

  lemma WalkedNode(g: Graph, root: int, seen: set<int>, pending: seq<int>, node: int, next: seq<int>)
    requires Walked(g, root, seen, Elements(pending) + {node})
    requires forall y :: (node, y) in g ==> y in next
    requires forall j :: 0 <= j < |next| ==> next[j] in seen
    ensures Walked(g, root, seen, Elements(pending))
  {
  }

  lemma WalkedSound(g: Graph, root: int, seen: set<int>, order: seq<int>)
    requires forall x :: x in seen ==> Reachable(g, root, x)
    requires Elements(order) <= seen && root !in order
    ensures Elements(order) <= Descendants(g, root)
  {
    forall x | x in Elements(order) ensures x in Descendants(g, root) {
      BelowIsReachable(g, root, x);
    }
  }

  lemma WalkedComplete(g: Graph, root: int, seen: set<int>)
    requires Walked(g, root, seen, {})
    ensures Descendants(g, root) <= seen
  {
    forall x | x in Descendants(g, root) ensures x in seen {
      BelowIsReachable(g, root, x);
      var n: nat :| Reach(g, root, x, n);
      ClosedHolds(g, seen, root, x, n);
    }
  }

  // ---------------------------------------------------------------- the walk along dependencies

  // The graph that the dependency lists describe: d blocks i.
  ghost function Blocking(deps: map<int, seq<int>>): Graph {
    set i, d | i in deps && d in deps[i] :: (d, i)
  }

  /** Every dependency names an existing issue. */
  ghost predicate Closed(deps: map<int, seq<int>>) {
    forall i, d :: i in deps && d in deps[i] ==> d in deps
  }

  ghost predicate Clear(g: Graph, node: int, sources: seq<int>) {
    forall s :: s in sources ==> !Reachable(g, node, s)
  }

  // What the walk knows: everything not yet pending came from the new dependencies and was expanded.
  ghost predicate WalkedBack(deps: map<int, seq<int>>, node: int, sources: seq<int>, seen: set<int>, pending: seq<int>) {
    && node !in seen && seen <= deps.Keys
    && (forall s :: s in sources ==> s in seen || s in pending)
    && (forall x, d :: x in seen && d in deps[x] ==> d in seen || d in pending)
  }

  // The graph before the edit and the table after it agree on everyone but the edited issue.
  ghost predicate Edited(g: Graph, deps: map<int, seq<int>>, node: int) {
    forall a, b :: b != node ==> ((a, b) in g <==> b in deps && a in deps[b])
  }

  // Pending entries are issues that some new dependency waits for.
  ghost predicate Leading(g: Graph, deps: map<int, seq<int>>, sources: seq<int>, pending: seq<int>) {
    forall x :: x in pending ==> x in deps && LeadsTo(g, x, sources)
  }

  /**
   * The worklist loop of `validate`. `deps` is the table with the edited issue's list already
   * replaced by `sources`; the walk reaches the edited issue if and only if, in the graph `g` as it
   * was before the edit, some new dependency is the issue itself or lies below it. The list of
   * pending issues may hold duplicates; the walk ends because it sees more and more issues.
   */
  method DependencyWalk(deps: map<int, seq<int>>, node: int, sources: seq<int>, ghost g: Graph)
    returns (cycle: bool)
    requires Closed(deps) && forall s :: s in sources ==> s in deps
    requires Edited(g, deps, node)
    ensures cycle <==> !Clear(g, node, sources)
  {
    var pending, seen := sources, {};
    WalkStarts(g, deps, node, sources);
    hide WalkedBack, Leading, LeadsTo, Closed, Edited;
    while pending != []
      invariant WalkedBack(deps, node, sources, seen, pending)
      invariant Leading(g, deps, sources, pending)
      decreases |deps.Keys - seen|, |pending|
    {
      var dependency := pending[|pending| - 1];
      LastPending(g, deps, sources, pending);
      if dependency == node {
        LeadsIsNotClear(g, node, sources);
        return true;
      }
      if dependency in seen {
        WalkSkips(g, deps, node, sources, seen, pending);
        pending := pending[..|pending| - 1];
      } else {
        WalkExpands(g, deps, node, sources, seen, pending);
        assert deps.Keys - (seen + {dependency}) == deps.Keys - seen - {dependency};
        seen := seen + {dependency};
        pending := pending[..|pending| - 1] + deps[dependency];
      }
    }
    NeverReached(g, deps, node, sources, seen);
    return false;
  }

  lemma WalkStarts(g: Graph, deps: map<int, seq<int>>, node: int, sources: seq<int>)
    requires forall s :: s in sources ==> s in deps
    ensures WalkedBack(deps, node, sources, {}, sources) && Leading(g, deps, sources, sources)
  {
    forall s | s in sources ensures LeadsTo(g, s, sources) { ReachSelf(g, s); }
  }

  lemma LastPending(g: Graph, deps: map<int, seq<int>>, sources: seq<int>, pending: seq<int>)
    requires pending != [] && Leading(g, deps, sources, pending)
    ensures pending[|pending| - 1] in deps && LeadsTo(g, pending[|pending| - 1], sources)
  {
    hide LeadsTo;
    var last := pending[|pending| - 1];
    assert last in pending;
  }

  lemma LeadsIsNotClear(g: Graph, node: int, sources: seq<int>)
    requires LeadsTo(g, node, sources)
    ensures !Clear(g, node, sources)
  {
  }

  lemma WalkSkips(g: Graph, deps: map<int, seq<int>>, node: int, sources: seq<int>, seen: set<int>, pending: seq<int>)
    requires pending != [] && pending[|pending| - 1] in seen
    requires WalkedBack(deps, node, sources, seen, pending) && Leading(g, deps, sources, pending)
    ensures WalkedBack(deps, node, sources, seen, pending[..|pending| - 1])
    ensures Leading(g, deps, sources, pending[..|pending| - 1])
  {
  }

  lemma WalkExpands(g: Graph, deps: map<int, seq<int>>, node: int, sources: seq<int>, seen: set<int>, pending: seq<int>)
    requires pending != [] && pending[|pending| - 1] != node && Closed(deps) && Edited(g, deps, node)
    requires WalkedBack(deps, node, sources, seen, pending) && Leading(g, deps, sources, pending)
    ensures var x := pending[|pending| - 1]; x in deps
    ensures var x := pending[|pending| - 1];
            var grown := pending[..|pending| - 1] + deps[x];
            WalkedBack(deps, node, sources, seen + {x}, grown) && Leading(g, deps, sources, grown)
  {
    var x := pending[|pending| - 1];
    var rest := pending[..|pending| - 1];
    assert pending == rest + [x];
    assert x in pending;
    LeadsBack(g, deps[x], x, sources);
    hide LeadsTo;
    var grown := rest + deps[x];
    assert forall y :: y in pending ==> y == x || y in grown;
    assert forall y :: y in deps[x] ==> y in grown;
  }

  ghost predicate LeadsTo(g: Graph, x: int, sources: seq<int>) {
    exists s :: s in sources && Reachable(g, x, s)
  }

  lemma LeadsBack(g: Graph, blockers: seq<int>, x: int, sources: seq<int>)
    requires LeadsTo(g, x, sources) && forall d :: d in blockers ==> (d, x) in g
    ensures forall d :: d in blockers ==> LeadsTo(g, d, sources)
  {
    var s :| s in sources && Reachable(g, x, s);
    var n: nat :| Reach(g, x, s, n);
    forall d | d in blockers ensures LeadsTo(g, d, sources) {
      ReachSelf(g, d);
      ReachEdge(g, d, d, x);
      ReachTransitive(g, d, x, s, n);
    }
  }

  lemma {:induction false} BackClosed(g: Graph, deps: map<int, seq<int>>, node: int, seen: set<int>, a: int, s: int, n: nat)
    requires WalkedBack(deps, node, [], seen, []) && s in seen && Reach(g, a, s, n)
    requires Edited(g, deps, node)
    ensures a in seen
    decreases n
  {
    if n > 0 {
      var c :| Reach(g, a, c, n - 1) && (c, s) in g;
      BackClosed(g, deps, node, seen, a, c, n - 1);
    }
  }

  lemma NeverReached(g: Graph, deps: map<int, seq<int>>, node: int, sources: seq<int>, seen: set<int>)
    requires WalkedBack(deps, node, sources, seen, [])
    requires Edited(g, deps, node)
    ensures Clear(g, node, sources)
  {
    forall s | s in sources ensures !Reachable(g, node, s) {
      if n: nat :| Reach(g, node, s, n) {
        BackClosed(g, deps, node, seen, node, s, n);
      }
    }
  }
}
