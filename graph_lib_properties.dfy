/**
 * What the breadth-first tree means: its vertices are exactly those reachable
 * from the source, the level of each is its distance from the source, getPath
 * returns the chain of discoverers back to the source, and totalSeparation
 * adds up the depths of a subtree.
 */
module GraphLibProperties {
  import opened Wrappers
  import opened GraphLib

  // ---------------------------------------------------------------------------
  // Walks and distances in g
  // ---------------------------------------------------------------------------

  /** p walks along edges of g from s to v. */
  ghost predicate Walk<V(!new), E>(g: Graph<V, E>, p: seq<V>, s: V, v: V)
  {
    p != [] && Chain(g, p) && p[0] == s && p[|p| - 1] == v
  }

  ghost predicate Reachable<V(!new), E>(g: Graph<V, E>, s: V, v: V)
  {
    exists p :: Walk(g, p, s, v)
  }

  /** n is the length of a shortest walk from s to v. */
  ghost predicate Distance<V(!new), E>(g: Graph<V, E>, s: V, v: V, n: nat)
  {
    (exists p :: Walk(g, p, s, v) && |p| == n + 1) &&
    (forall p :: Walk(g, p, s, v) ==> |p| >= n + 1)
  }

  /** Along a walk from the source every vertex is in the tree, at a level no
      higher than its position on the walk. */
  lemma {:induction false} WalkInTree<V, E>(g: Graph<V, E>, source: V, tree: Tree<V, E>, parent: map<V, V>,
                                            dist: map<V, nat>, p: seq<V>)
    requires ParentTree(g, source, tree, parent, dist) && Complete(g, tree, dist)
    requires p != [] && Chain(g, p) && p[0] == source
    ensures forall i :: 0 <= i < |p| ==> p[i] in tree && dist[p[i]] <= i
    decreases |p|
  {
    if |p| > 1 {
      var q := p[..|p| - 1];
      assert forall i :: 0 <= i < |q| ==> q[i] == p[i];
      assert Chain(g, q);
      WalkInTree(g, source, tree, parent, dist, q);
      var u, w := p[|p| - 2], p[|p| - 1];
      assert HasEdge(g, u, w);
      assert Explored(g, dist, u);
    }
  }

  /** Following the discoverers back from v gives a walk from the source to v
      with as many edges as v's level. */
  lemma {:induction false} TreeWalk<V(!new), E>(g: Graph<V, E>, source: V, tree: Tree<V, E>, parent: map<V, V>,
                                          dist: map<V, nat>, v: V) returns (p: seq<V>)
    requires ParentTree(g, source, tree, parent, dist) && v in tree
    ensures Walk(g, p, source, v) && |p| == dist[v] + 1
    decreases dist[v]
  {
    if v == source {
      p := [source];
    } else {
      var u := parent[v];
      var q := TreeWalk(g, source, tree, parent, dist, u);
      ChainSnoc(g, q, v);
      p := q + [v];
    }
  }

  /** bfs reaches exactly the vertices reachable from the source. */
  lemma {:induction false} BfsReachable<V(!new), E>(g: Graph<V, E>, source: V, tree: Tree<V, E>, parent: map<V, V>, dist: map<V, nat>, v: V)
    requires ParentTree(g, source, tree, parent, dist) && Complete(g, tree, dist)
    ensures v in tree <==> Reachable(g, source, v)
  {
    if v in tree {
      var p := TreeWalk(g, source, tree, parent, dist, v);
    }
    if Reachable(g, source, v) {
      var p :| Walk(g, p, source, v);
      WalkInTree(g, source, tree, parent, dist, p);
    }
  }

  /** The level bfs gives a vertex is its distance from the source. */
  lemma {:induction false} BfsDistance<V(!new), E>(g: Graph<V, E>, source: V, tree: Tree<V, E>, parent: map<V, V>, dist: map<V, nat>, v: V)
    requires ParentTree(g, source, tree, parent, dist) && Complete(g, tree, dist) && v in tree
    ensures Distance(g, source, v, dist[v])
  {
    var p := TreeWalk(g, source, tree, parent, dist, v);
    forall q | Walk(g, q, source, v)
      ensures |q| >= dist[v] + 1
    {
      WalkInTree(g, source, tree, parent, dist, q);
    }
  }

  /** The levels of the bfs tree are exactly the distances in g: v is in the
      tree at level n if and only if n is the length of a shortest walk from
      the source to v. */
  lemma {:induction false} BfsSeparation<V(!new), E>(g: Graph<V, E>, source: V, tree: Tree<V, E>, parent: map<V, V>, dist: map<V, nat>,
                                  v: V, n: nat)
    requires ParentTree(g, source, tree, parent, dist) && Complete(g, tree, dist)
    ensures v in tree && dist[v] == n <==> Distance(g, source, v, n)
  {
    if Distance(g, source, v, n) {
      var p :| Walk(g, p, source, v) && |p| == n + 1;
      BfsReachable(g, source, tree, parent, dist, v);
      BfsDistance(g, source, tree, parent, dist, v);
      var q :| Walk(g, q, source, v) && |q| == dist[v] + 1;
    } else if v in tree {
      BfsDistance(g, source, tree, parent, dist, v);
    }
  }

  /** A vertex other than the source hangs below its discoverer, by one edge
      that reverses an edge of g, one level down. */
  lemma {:induction false} Discovered<V, E>(g: Graph<V, E>, source: V, tree: Tree<V, E>, parent: map<V, V>, dist: map<V, nat>, v: V)
    requires ParentTree(g, source, tree, parent, dist) && v in tree && v != source
    ensures v in parent && parent[v] in tree && tree[v] == map[parent[v] := None] && tree[v].Keys == {parent[v]}
    ensures HasEdge(g, parent[v], v) && dist[v] == dist[parent[v]] + 1
  {
  }

  /** Every tree edge v -> u reverses an edge u -> v of g one level up, and the
      source is the only vertex without one. */
  lemma {:induction false} TreeEdges<V(!new), E>(g: Graph<V, E>, source: V, tree: Tree<V, E>, parent: map<V, V>, dist: map<V, nat>)
    requires ParentTree(g, source, tree, parent, dist)
    ensures forall v, u :: HasEdge(tree, v, u) ==> u in tree && HasEdge(g, u, v) && dist[v] == dist[u] + 1
    ensures forall v :: v in tree ==> (tree[v] == map[] <==> v == source)
    ensures forall v :: v in tree && v != source ==> |tree[v]| == 1
  {
    forall v, u | HasEdge(tree, v, u)
      ensures u in tree && HasEdge(g, u, v) && dist[v] == dist[u] + 1
    {
      Discovered(g, source, tree, parent, dist, v);
    }
    forall v | v in tree && v != source
      ensures tree[v] != map[] && |tree[v]| == 1
    {
      Discovered(g, source, tree, parent, dist, v);
    }
  }

  // ---------------------------------------------------------------------------
  // getPath on a breadth-first tree
  // ---------------------------------------------------------------------------

  /** Levels rank a breadth-first tree: getPath applies to it. */
  lemma {:induction false} BfsRanked<V(!new), E>(g: Graph<V, E>, source: V, tree: Tree<V, E>, parent: map<V, V>, dist: map<V, nat>)
    requires ParentTree(g, source, tree, parent, dist)
    ensures Ranked(tree, dist)
  {
    forall u, w | u in tree && w in tree[u]
      ensures w in tree && w in dist && dist[w] < dist[u]
    {
      Discovered(g, source, tree, parent, dist, u);
    }
  }

  /** The discoverers of v, from its own up to the source. */
  ghost function Ancestors<V(!new), E>(g: Graph<V, E>, source: V, tree: Tree<V, E>, parent: map<V, V>, dist: map<V, nat>, v: V): seq<V>
    requires ParentTree(g, source, tree, parent, dist) && v in tree
    decreases dist[v]
  {
    if v == source then [] else [parent[v]] + Ancestors(g, source, tree, parent, dist, parent[v])
  }

  /** There are as many ancestors as v's level, and the last is the source. */
  lemma {:induction false} AncestorsShape<V(!new), E>(g: Graph<V, E>, source: V, tree: Tree<V, E>, parent: map<V, V>,
                                                dist: map<V, nat>, v: V)
    requires ParentTree(g, source, tree, parent, dist) && v in tree
    ensures |Ancestors(g, source, tree, parent, dist, v)| == dist[v]
    ensures v != source ==> Ancestors(g, source, tree, parent, dist, v)[dist[v] - 1] == source
    decreases dist[v]
  {
    if v != source {
      var u := parent[v];
      AncestorsShape(g, source, tree, parent, dist, u);
      if u == source {
        assert dist[v] == 1;
      }
    }
  }

  /** Dropping the first vertex of a chain leaves a chain. */
  lemma {:induction false} ChainTail<V, L>(tree: Graph<V, L>, w: V, q: seq<V>)
    requires Chain(tree, [w] + q)
    ensures Chain(tree, q)
  {
    var p := [w] + q;
    forall i | 0 <= i < |q| - 1
      ensures HasEdge(tree, q[i], q[i + 1])
    {
      assert p[i + 1] == q[i] && p[i + 2] == q[i + 1];
    }
  }

  /** In a breadth-first tree the only path to a root is the chain of ancestors. */
  lemma {:induction false} RootPathAncestors<V(!new), E>(g: Graph<V, E>, source: V, tree: Tree<V, E>, parent: map<V, V>,
                                                   dist: map<V, nat>, v: V, path: seq<V>)
    requires ParentTree(g, source, tree, parent, dist) && RootPath(tree, v, path)
    ensures path == Ancestors(g, source, tree, parent, dist, v)
    decreases |path|
  {
    var p := [v] + path;
    if path == [] {
      assert tree[v] == map[];
      TreeEdges(g, source, tree, parent, dist);
    } else {
      assert HasEdge(tree, p[0], p[1]);
      TreeEdges(g, source, tree, parent, dist);
      Discovered(g, source, tree, parent, dist, v);
      assert path[0] == parent[v];
      assert p == [v] + ([path[0]] + path[1..]);
      ChainTail(tree, v, path);
      RootPathAncestors(g, source, tree, parent, dist, path[0], path[1..]);
      assert path == [path[0]] + path[1..];
    }
  }

  /** What getPath returns on a breadth-first tree: nothing for a vertex outside
      it, and otherwise the ancestors of v up to the source, as many as the
      distance from the source to v. */
  lemma {:induction false} GetPathOnBfsTree<V(!new), E>(g: Graph<V, E>, source: V, tree: Tree<V, E>, parent: map<V, V>, dist: map<V, nat>,
                               v: V, path: seq<V>)
    requires ParentTree(g, source, tree, parent, dist)
    requires NoEdges(tree) || v !in tree ==> path == []
    requires !NoEdges(tree) && v in tree ==> RootPath(tree, v, path)
    ensures v !in tree ==> path == []
    ensures v in tree ==> path == Ancestors(g, source, tree, parent, dist, v) && |path| == dist[v]
  {
    if v in tree {
      AncestorsShape(g, source, tree, parent, dist, v);
      if NoEdges(tree) {
        TreeEdges(g, source, tree, parent, dist);
        assert v == source;
      } else {
        RootPathAncestors(g, source, tree, parent, dist, v, path);
      }
    }
  }

  // ---------------------------------------------------------------------------
  // totalSeparation on a breadth-first tree
  // ---------------------------------------------------------------------------

  /** u lies in the subtree of r: r is u or one of its ancestors. */
  ghost predicate Below<V(!new)>(parent: map<V, V>, dist: map<V, nat>, u: V, r: V)
    requires u in dist
    decreases dist[u]
  {
    u == r || (u in parent && parent[u] in dist && dist[parent[u]] < dist[u] && Below(parent, dist, parent[u], r))
  }

  ghost function SubTree<V(!new)>(parent: map<V, V>, dist: map<V, nat>, r: V): set<V>
  {
    set u | u in dist && Below(parent, dist, u, r)
  }

  ghost function SubTrees<V(!new)>(parent: map<V, V>, dist: map<V, nat>, roots: set<V>): set<V>
  {
    set u | u in dist && exists c :: c in roots && Below(parent, dist, u, c)
  }

  /** The sum over s of base plus the level of each vertex. */
  ghost function DepthSum<V(!new)>(s: set<V>, dist: map<V, nat>, base: int): int
    requires s <= dist.Keys
    decreases |s|
  {
    if s == {} then 0
    else
      var u :| u in s;
      base + dist[u] + DepthSum(s - {u}, dist, base)
  }

  /** The sum does not depend on which vertex is taken first. */
  lemma {:induction false} DepthSumRemove<V(!new)>(s: set<V>, dist: map<V, nat>, base: int, x: V)
    requires s <= dist.Keys && x in s
    ensures DepthSum(s, dist, base) == base + dist[x] + DepthSum(s - {x}, dist, base)
    decreases |s|
  {
    var y :| y in s && DepthSum(s, dist, base) == base + dist[y] + DepthSum(s - {y}, dist, base);
    if y != x {
      DepthSumRemove(s - {y}, dist, base, x);
      DepthSumRemove(s - {x}, dist, base, y);
      assert s - {y} - {x} == s - {x} - {y};
    }
  }

  lemma {:induction false} DepthSumUnion<V(!new)>(a: set<V>, b: set<V>, dist: map<V, nat>, base: int)
    requires a <= dist.Keys && b <= dist.Keys && a * b == {}
    ensures DepthSum(a + b, dist, base) == DepthSum(a, dist, base) + DepthSum(b, dist, base)
    decreases |a|
  {
    if a != {} {
      var x :| x in a;
      DepthSumRemove(a + b, dist, base, x);
      DepthSumRemove(a, dist, base, x);
      assert (a + b) - {x} == (a - {x}) + b;
      DepthSumUnion(a - {x}, b, dist, base);
    } else {
      assert a + b == b;
    }
  }

  lemma {:induction false} BelowLevel<V(!new)>(parent: map<V, V>, dist: map<V, nat>, u: V, r: V)
    requires u in dist && Below(parent, dist, u, r)
    ensures r in dist && dist[r] <= dist[u]
    decreases dist[u]
  {
    if u != r {
      BelowLevel(parent, dist, parent[u], r);
    }
  }

  /** A vertex lies below at most one vertex of each level. */
  lemma {:induction false} BelowUnique<V(!new)>(parent: map<V, V>, dist: map<V, nat>, u: V, c1: V, c2: V)
    requires u in dist && Below(parent, dist, u, c1) && Below(parent, dist, u, c2)
    requires c1 in dist && c2 in dist && dist[c1] == dist[c2]
    ensures c1 == c2
    decreases dist[u]
  {
    if u == c1 {
      if u != c2 {
        BelowLevel(parent, dist, parent[u], c2);
      }
    } else if u == c2 {
      BelowLevel(parent, dist, parent[u], c1);
    } else {
      BelowUnique(parent, dist, parent[u], c1, c2);
    }
  }

  /** The in-neighbours of a vertex in a breadth-first tree are the vertices it
      discovered, one level below it. */
  lemma {:induction false} Children<V(!new), E>(g: Graph<V, E>, source: V, tree: Tree<V, E>, parent: map<V, V>, dist: map<V, nat>, r: V, c: V)
    requires ParentTree(g, source, tree, parent, dist) && c in InNeighbors(tree, r)
    ensures c in parent && parent[c] == r && dist[c] == dist[r] + 1
  {
    Discovered(g, source, tree, parent, dist, c);
  }

  /** A subtree is its root and the subtrees of the root's in-neighbours. */
  lemma {:induction false} SubTreeSplit<V(!new), E>(g: Graph<V, E>, source: V, tree: Tree<V, E>, parent: map<V, V>, dist: map<V, nat>, r: V)
    requires ParentTree(g, source, tree, parent, dist) && r in tree
    ensures SubTree(parent, dist, r) == {r} + SubTrees(parent, dist, InNeighbors(tree, r))
    ensures r !in SubTrees(parent, dist, InNeighbors(tree, r))
  {
    var children := InNeighbors(tree, r);
    forall u | u in SubTree(parent, dist, r) && u != r
      ensures u in SubTrees(parent, dist, children)
    {
      var c := ChildAbove(g, source, tree, parent, dist, r, u);
    }
    forall u | u in SubTrees(parent, dist, children)
      ensures u in SubTree(parent, dist, r) && u != r
    {
      var c :| c in children && Below(parent, dist, u, c);
      Children(g, source, tree, parent, dist, r, c);
      BelowThrough(parent, dist, u, c, r);
      BelowLevel(parent, dist, u, c);
    }
  }

  /** Below a vertex other than itself, u lies below one of its in-neighbours. */
  lemma {:induction false} ChildAbove<V(!new), E>(g: Graph<V, E>, source: V, tree: Tree<V, E>, parent: map<V, V>,
                                            dist: map<V, nat>, r: V, u: V) returns (c: V)
    requires ParentTree(g, source, tree, parent, dist)
    requires u in dist && Below(parent, dist, u, r) && u != r
    ensures c in InNeighbors(tree, r) && Below(parent, dist, u, c)
    decreases dist[u]
  {
    var p := parent[u];
    if p == r {
      c := u;
      Discovered(g, source, tree, parent, dist, u);
    } else {
      c := ChildAbove(g, source, tree, parent, dist, r, p);
    }
  }

  /** Below a vertex discovered from r is below r. */
  lemma {:induction false} BelowThrough<V(!new)>(parent: map<V, V>, dist: map<V, nat>, u: V, c: V, r: V)
    requires u in dist && Below(parent, dist, u, c)
    requires c in parent && parent[c] == r && r in dist && c in dist && dist[r] < dist[c]
    ensures Below(parent, dist, u, r)
    decreases dist[u]
  {
    if u != c {
      BelowThrough(parent, dist, parent[u], c, r);
    }
  }

  /** The subtrees of a set of in-neighbours of r: one of them, and the rest,
      which share no vertex with it. */
  lemma {:induction false} SubTreesSplit<V(!new), E>(g: Graph<V, E>, source: V, tree: Tree<V, E>, parent: map<V, V>, dist: map<V, nat>,
                            r: V, roots: set<V>, c: V)
    requires ParentTree(g, source, tree, parent, dist) && roots <= InNeighbors(tree, r) && c in roots
    ensures SubTrees(parent, dist, roots) == SubTree(parent, dist, c) + SubTrees(parent, dist, roots - {c})
    ensures SubTree(parent, dist, c) * SubTrees(parent, dist, roots - {c}) == {}
  {
    Children(g, source, tree, parent, dist, r, c);
    forall u | u in SubTree(parent, dist, c) && u in SubTrees(parent, dist, roots - {c})
      ensures false
    {
      var c' :| c' in roots - {c} && Below(parent, dist, u, c');
      Children(g, source, tree, parent, dist, r, c');
      BelowUnique(parent, dist, u, c, c');
    }
  }

  /** The depths of a subtree: its root's and those of the subtrees of the
      root's in-neighbours. */
  lemma {:induction false} SubTreeSum<V(!new), E>(g: Graph<V, E>, source: V, tree: Tree<V, E>, parent: map<V, V>, dist: map<V, nat>,
                               r: V, base: int)
    requires ParentTree(g, source, tree, parent, dist) && r in tree
    ensures SubTree(parent, dist, r) <= dist.Keys && SubTrees(parent, dist, InNeighbors(tree, r)) <= dist.Keys
    ensures DepthSum(SubTree(parent, dist, r), dist, base) ==
      base + dist[r] + DepthSum(SubTrees(parent, dist, InNeighbors(tree, r)), dist, base)
  {
    SubTreeSplit(g, source, tree, parent, dist, r);
    DepthSumRemove(SubTree(parent, dist, r), dist, base, r);
    assert SubTree(parent, dist, r) - {r} == SubTrees(parent, dist, InNeighbors(tree, r));
  }

  /** The depths of the subtrees of some in-neighbours: those of one of them
      and those of the others. */
  lemma {:induction false} SubTreesSum<V(!new), E>(g: Graph<V, E>, source: V, tree: Tree<V, E>, parent: map<V, V>, dist: map<V, nat>,
                                r: V, roots: set<V>, c: V, base: int)
    requires ParentTree(g, source, tree, parent, dist) && roots <= InNeighbors(tree, r) && c in roots
    ensures SubTree(parent, dist, c) <= dist.Keys && SubTrees(parent, dist, roots - {c}) <= dist.Keys
    ensures SubTrees(parent, dist, roots) <= dist.Keys
    ensures DepthSum(SubTrees(parent, dist, roots), dist, base) ==
      DepthSum(SubTree(parent, dist, c), dist, base) + DepthSum(SubTrees(parent, dist, roots - {c}), dist, base)
  {
    SubTreesSplit(g, source, tree, parent, dist, r, roots, c);
    DepthSumUnion(SubTree(parent, dist, c), SubTrees(parent, dist, roots - {c}), dist, base);
  }

  /** totalSeparation(tree, root, total) adds, over the subtree of root, total
      plus the depth of each vertex below root, that is base plus its level. */
  lemma {:induction false} TotalSeparationSum<V(!new), E>(g: Graph<V, E>, source: V, tree: Tree<V, E>, parent: map<V, V>,
                                                    dist: map<V, nat>, r: V, total: int, base: int)
    requires ParentTree(g, source, tree, parent, dist) && Ranked(tree, dist) && r in tree
    requires base == total - dist[r]
    ensures SubTree(parent, dist, r) <= dist.Keys
    ensures TotalSeparation(tree, dist, r, total) == DepthSum(SubTree(parent, dist, r), dist, base)
    decreases Above(tree, dist, r), 1
  {
    var children := InNeighbors(tree, r);
    assert TotalSeparation(tree, dist, r, total) == total + SeparationOver(tree, dist, r, children, total + 1);
    SeparationOverSum(g, source, tree, parent, dist, r, children, total + 1, base);
    SubTreeSum(g, source, tree, parent, dist, r, base);
    var below := DepthSum(SubTrees(parent, dist, children), dist, base);
    assert SeparationOver(tree, dist, r, children, total + 1) == below;
    assert DepthSum(SubTree(parent, dist, r), dist, base) == base + dist[r] + below;
  }

  lemma {:induction false} SeparationOverSum<V(!new), E>(g: Graph<V, E>, source: V, tree: Tree<V, E>, parent: map<V, V>,
                                                   dist: map<V, nat>, r: V, roots: set<V>, total: int, base: int)
    requires ParentTree(g, source, tree, parent, dist) && Ranked(tree, dist) && r in tree
    requires roots <= InNeighbors(tree, r) && base == total - dist[r] - 1
    ensures SubTrees(parent, dist, roots) <= dist.Keys
    ensures SeparationOver(tree, dist, r, roots, total) == DepthSum(SubTrees(parent, dist, roots), dist, base)
    decreases Above(tree, dist, r), 0, roots
  {
    if roots == {} {
      assert SubTrees(parent, dist, roots) == {};
      assert SeparationOver(tree, dist, r, roots, total) == 0 == DepthSum({}, dist, base);
    } else {
      var c :| c in roots && SeparationOver(tree, dist, r, roots, total) ==
        TotalSeparation(tree, dist, c, total) + SeparationOver(tree, dist, r, roots - {c}, total);
      var rest := roots - {c};
      Children(g, source, tree, parent, dist, r, c);
      AboveShrinks(tree, dist, r, c);
      TotalSeparationSum(g, source, tree, parent, dist, c, total, base);
      SeparationOverSum(g, source, tree, parent, dist, r, rest, total, base);
      SubTreesSum(g, source, tree, parent, dist, r, roots, c, base);
      var here, there := DepthSum(SubTree(parent, dist, c), dist, base), DepthSum(SubTrees(parent, dist, rest), dist, base);
      assert TotalSeparation(tree, dist, c, total) == here;
      assert SeparationOver(tree, dist, r, rest, total) == there;
      assert DepthSum(SubTrees(parent, dist, roots), dist, base) == here + there;
      assert SeparationOver(tree, dist, r, roots, total) == here + there;
    }
  }

  /** Every vertex of a breadth-first tree lies below the source. */
  lemma {:induction false} BelowSource<V(!new), E>(g: Graph<V, E>, source: V, tree: Tree<V, E>, parent: map<V, V>,
                                             dist: map<V, nat>, u: V)
    requires ParentTree(g, source, tree, parent, dist) && u in tree
    ensures Below(parent, dist, u, source)
    decreases dist[u]
  {
    if u != source {
      BelowSource(g, source, tree, parent, dist, parent[u]);
    }
  }

  /** From the source with total 0, totalSeparation is the sum of the
      distances bfs found, the numerator of averageSeparation. */
  lemma {:induction false} TotalSeparationFromSource<V(!new), E>(g: Graph<V, E>, source: V, tree: Tree<V, E>, parent: map<V, V>,
                                              dist: map<V, nat>)
    requires ParentTree(g, source, tree, parent, dist)
    ensures Ranked(tree, dist)
    ensures TotalSeparation(tree, dist, source, 0) == DepthSum(tree.Keys, dist, 0)
  {
    BfsRanked(g, source, tree, parent, dist);
    TotalSeparationSum(g, source, tree, parent, dist, source, 0, 0);
    forall u | u in tree
      ensures u in SubTree(parent, dist, source)
    {
      BelowSource(g, source, tree, parent, dist, u);
    }
    assert SubTree(parent, dist, source) == tree.Keys;
  }

  /** With base 0, a depth sum is zero exactly when every level in s is. */
  lemma {:induction false} DepthSumZero<V(!new)>(s: set<V>, dist: map<V, nat>)
    requires s <= dist.Keys
    ensures DepthSum(s, dist, 0) >= 0
    ensures DepthSum(s, dist, 0) == 0 <==> forall v :: v in s ==> dist[v] == 0
    decreases |s|
  {
    if s != {} {
      var x :| x in s;
      DepthSumRemove(s, dist, 0, x);
      DepthSumZero(s - {x}, dist);
    }
  }

  /** When the source has no neighbour but itself, bfs reaches nothing else. */
  lemma {:induction false} OnlySource<V(!new), E>(g: Graph<V, E>, source: V, tree: Tree<V, E>, parent: map<V, V>,
                                                  dist: map<V, nat>, v: V)
    requires ParentTree(g, source, tree, parent, dist) && source in g && g[source].Keys <= {source}
    requires v in tree
    ensures v == source
    decreases dist[v]
  {
    if v != source {
      Discovered(g, source, tree, parent, dist, v);
      if parent[v] != source {
        OnlySource(g, source, tree, parent, dist, parent[v]);
      }
    }
  }

  lemma {:induction false} QuotientZero(x: int, n: int)
    requires n > 0
    ensures x as real / n as real == 0.0 <==> x == 0
  {
    if x != 0 {
      assert (x as real / n as real) * n as real == x as real;
    }
  }

  /** The average separation of a bfs tree is 0 exactly when the source has
      no neighbour other than itself: then the tree is the source alone. */
  lemma {:induction false} AverageZero<V(!new), E>(g: Graph<V, E>, source: V, tree: Tree<V, E>, parent: map<V, V>, dist: map<V, nat>)
    requires ParentTree(g, source, tree, parent, dist) && Complete(g, tree, dist) && Ranked(tree, dist)
    ensures source in g
    ensures AverageSeparation(tree, dist, source) == 0.0 <==> g[source].Keys <= {source}
  {
    assert Explored(g, dist, source);
    TotalSeparationFromSource(g, source, tree, parent, dist);
    assert source in tree.Keys;
    QuotientZero(TotalSeparation(tree, dist, source, 0), |tree|);
    DepthSumZero(tree.Keys, dist);
    if g[source].Keys <= {source} {
      forall v | v in tree
        ensures dist[v] == 0
      {
        OnlySource(g, source, tree, parent, dist, v);
      }
    } else {
      var w :| w in g[source] && w != source;
      assert w in tree && w in parent;
    }
  }
}
