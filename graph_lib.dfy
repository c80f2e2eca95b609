/**
 * The graph library of the Kevin Bacon game: breadth-first search building a
 * shortest-path tree, the path from a vertex back to the root of such a tree,
 * the vertices one graph has and another lacks, and the total depth of a tree.
 *
 * A graph is its map of out-edges: each vertex to the map from its
 * out-neighbours to the labels of those edges, as in an adjacency-map graph.
 * In-neighbours are computed from it.
 */
module GraphLib {
  import opened Wrappers

  type Graph<V, E> = map<V, map<V, E>>

  /** A shortest-path tree: the edges carry no label (Java's null). */
  type Tree<V, E> = Graph<V, Option<E>>

  /** Asking an adjacency-map graph for the neighbours of a vertex it does not have. */
  datatype GraphError = NullPointer

  /** The graph's own invariant: every edge ends at a vertex of the graph. */
  ghost predicate Closed<V, E>(g: Graph<V, E>)
  {
    forall u, w :: u in g && w in g[u] ==> w in g
  }

  predicate HasEdge<V, E>(g: Graph<V, E>, u: V, w: V)
  {
    u in g && w in g[u]
  }

  /** numEdges() == 0 */
  predicate NoEdges<V, E>(g: Graph<V, E>)
  {
    forall u :: u in g ==> g[u] == map[]
  }

  function InNeighbors<V(!new), E>(g: Graph<V, E>, v: V): (r: set<V>)
    ensures forall u :: u in r <==> HasEdge(g, u, v)
  {
    set u | u in g && v in g[u]
  }

  // ---------------------------------------------------------------------------
  // Breadth-first search
  // ---------------------------------------------------------------------------

  /**
   * The tree records, for every vertex other than the source, the vertex it
   * was discovered from as its only out-neighbour, at one more level than
   * that vertex; the source is at level 0 and has no out-edge.
   */
  ghost predicate ParentTree<V, E>(g: Graph<V, E>, source: V, tree: Tree<V, E>, parent: map<V, V>, dist: map<V, nat>)
  {
    source in tree && tree[source] == map[] &&
    dist.Keys == tree.Keys && dist[source] == 0 &&
    parent.Keys == tree.Keys - {source} &&
    forall v {:trigger parent[v]} :: v in parent ==>
      parent[v] in tree && HasEdge(g, parent[v], v) &&
      tree[v] == map[parent[v] := None] && dist[v] == dist[parent[v]] + 1
  }

  /** Every out-neighbour in g of u has been reached, at most one level below u. */
  ghost predicate Explored<V, E>(g: Graph<V, E>, dist: map<V, nat>, u: V)
  {
    u in g && u in dist &&
    forall w :: w in g[u] ==> w in dist && dist[w] <= dist[u] + 1
  }

  /** Every vertex of the tree has been explored: nothing reachable is left out. */
  ghost predicate Complete<V, E, L>(g: Graph<V, E>, tree: Graph<V, L>, dist: map<V, nat>)
  {
    forall u :: u in tree ==> Explored(g, dist, u)
  }

  /** The breadth-first queue: its first k vertices are at level L, the
      rest at level L + 1, and nothing has been reached beyond level L + 1. */
  ghost predicate Layered<V>(queue: seq<V>, dist: map<V, nat>, L: nat, k: nat)
  {
    k <= |queue| &&
    (forall i :: 0 <= i < |queue| ==> queue[i] in dist && dist[queue[i]] == if i < k then L else L + 1) &&
    (forall v :: v in dist ==> dist[v] <= L + 1)
  }

  /** Where the head of the queue stands: at level L while vertices of that
      level are left, otherwise at level L + 1, where the whole queue is. The
      queue without its head is then layered at that level. */
  lemma {:induction false} Relevel<V>(queue: seq<V>, dist: map<V, nat>, L: nat, k: nat) returns (L': nat, k': nat)
    requires Layered(queue, dist, L, k) && queue != []
    ensures 0 < k' && dist[queue[0]] == L'
    ensures Layered(queue[1..], dist, L', k' - 1)
  {
    L', k' := if k == 0 then L + 1 else L, if k == 0 then |queue| else k;
    assert forall i :: 0 <= i < |queue| - 1 ==> queue[1..][i] == queue[i + 1];
  }

  /** Putting a newly reached vertex at the back of the queue, one level below L. */
  lemma {:induction false} Enqueue<V>(queue: seq<V>, dist: map<V, nat>, L: nat, k: nat, v: V)
    requires Layered(queue, dist, L, k) && v !in dist
    ensures Layered(queue + [v], dist[v := L + 1], L, k)
  {
    assert forall i :: 0 <= i < |queue| ==> (queue + [v])[i] == queue[i];
  }

  /** insertVertex: a vertex already present keeps its edges. */
  function InsertVertex<V, L>(tree: Graph<V, L>, v: V): (r: Graph<V, L>)
    ensures r.Keys == tree.Keys + {v}
    ensures forall u :: u in tree ==> r[u] == tree[u]
    ensures v !in tree ==> r[v] == map[]
  {
    if v in tree then tree else tree[v := map[]]
  }

  /** The tree after v is discovered from current (GraphLib.java:36-38):
      both are vertices and the edge v -> current carries no label. */
  function Discover<V, E>(tree: Tree<V, E>, current: V, v: V): (r: Tree<V, E>)
    requires current in tree && v !in tree
    ensures r == tree[v := map[current := None]]
  {
    var t := InsertVertex(InsertVertex(tree, current), v);
    t[v := t[v][current := None]]
  }

  /** Recording the discovery of v from current keeps the tree a parent tree. */
  lemma {:induction false} DiscoverParent<V, E>(g: Graph<V, E>, source: V, tree: Tree<V, E>, parent: map<V, V>, dist: map<V, nat>,
                             current: V, v: V, level: nat)
    requires ParentTree(g, source, tree, parent, dist) && current in tree && v !in tree && HasEdge(g, current, v)
    requires level == dist[current] + 1
    ensures ParentTree(g, source, Discover(tree, current, v), parent[v := current], dist[v := level])
  {
    var tree', parent', dist' := Discover(tree, current, v), parent[v := current], dist[v := level];
    forall u | u in parent'
      ensures parent'[u] in tree' && HasEdge(g, parent'[u], u)
      ensures tree'[u] == map[parent'[u] := None] && dist'[u] == dist'[parent'[u]] + 1
    {
      if u != v {
        assert u in parent;
      }
    }
  }

  /** Reaching a new vertex leaves explored vertices explored. */
  lemma {:induction false} ExploredKept<V, E>(g: Graph<V, E>, dist: map<V, nat>, processed: set<V>, v: V, level: nat)
    requires forall u :: u in processed ==> Explored(g, dist, u)
    requires v !in dist
    ensures forall u :: u in processed ==> Explored(g, dist[v := level], u)
  {
    forall u | u in processed
      ensures Explored(g, dist[v := level], u)
    {
      assert Explored(g, dist, u);
    }
  }

  /** The state while the out-neighbours of current, at level L, are scanned;
      todo holds those not looked at yet. */
  ghost predicate Scan<V, E>(g: Graph<V, E>, source: V, current: V, L: nat, k: nat, processed: set<V>,
                             visited: set<V>, tree: Tree<V, E>, queue: seq<V>, parent: map<V, V>, dist: map<V, nat>,
                             todo: set<V>)
  {
    visited == tree.Keys && tree.Keys <= g.Keys &&
    ParentTree(g, source, tree, parent, dist) &&
    current in tree && dist[current] == L &&
    Layered(queue, dist, L, k) &&
    processed <= tree.Keys &&
    (forall u :: u in tree ==> u in processed || u in queue || u == current) &&
    (forall u :: u in processed ==> Explored(g, dist, u)) &&
    todo <= g[current].Keys &&
    (forall w :: w in g[current] && w !in todo ==> w in dist && dist[w] <= L + 1)
  }

  /** An out-neighbour visited before changes nothing. */
  lemma {:induction false} ScanSkip<V, E>(g: Graph<V, E>, source: V, current: V, L: nat, k: nat, processed: set<V>,
                       visited: set<V>, tree: Tree<V, E>, queue: seq<V>, parent: map<V, V>, dist: map<V, nat>,
                       todo: set<V>, v: V)
    requires Scan(g, source, current, L, k, processed, visited, tree, queue, parent, dist, todo)
    requires v in todo && v in visited
    ensures Scan(g, source, current, L, k, processed, visited, tree, queue, parent, dist, todo - {v})
  {
  }

  /** An out-neighbour not visited before is visited, queued and recorded one
      level below current (GraphLib.java:32-38). */
  lemma {:induction false} ScanVisit<V, E>(g: Graph<V, E>, source: V, current: V, L: nat, k: nat, processed: set<V>,
                        visited: set<V>, tree: Tree<V, E>, queue: seq<V>, parent: map<V, V>, dist: map<V, nat>,
                        todo: set<V>, v: V)
    requires Closed(g)
    requires Scan(g, source, current, L, k, processed, visited, tree, queue, parent, dist, todo)
    requires v in todo && v !in visited
    ensures Scan(g, source, current, L, k, processed, visited + {v}, Discover(tree, current, v), queue + [v],
                 parent[v := current], dist[v := L + 1], todo - {v})
  {
    Enqueue(queue, dist, L, k, v);
    DiscoverParent(g, source, tree, parent, dist, current, v, L + 1);
    ExploredKept(g, dist, processed, v, L + 1);
  }

  /** With every out-neighbour looked at, current is explored. */
  lemma {:induction false} ScanDone<V, E>(g: Graph<V, E>, source: V, current: V, L: nat, k: nat, processed: set<V>,
                       visited: set<V>, tree: Tree<V, E>, queue: seq<V>, parent: map<V, V>, dist: map<V, nat>)
    requires Scan(g, source, current, L, k, processed, visited, tree, queue, parent, dist, {})
    ensures forall u :: u in processed + {current} ==> Explored(g, dist, u)
    ensures forall u :: u in tree ==> u in processed + {current} || u in queue
  {
  }

  /**
   * The loop over the out-neighbours of current in bfs (GraphLib.java:31-40):
   * every one not visited before is visited now, queued, and recorded in the
   * tree as discovered from current, one level below it.
   */
  method ScanNeighbours<V, E>(g: Graph<V, E>, ghost source: V, current: V, tree: Tree<V, E>, visited: set<V>, queue: seq<V>,
                              ghost parent: map<V, V>, ghost dist: map<V, nat>, ghost processed: set<V>, ghost L: nat, ghost k: nat)
    returns (tree': Tree<V, E>, visited': set<V>, queue': seq<V>, ghost parent': map<V, V>, ghost dist': map<V, nat>)
    requires Closed(g) && current in g
    requires Scan(g, source, current, L, k, processed, visited, tree, queue, parent, dist, g[current].Keys)
    ensures visited' == tree'.Keys && tree'.Keys <= g.Keys
    ensures visited <= visited' && (visited' == visited ==> queue' == queue)
    ensures processed + {current} <= tree'.Keys
    ensures ParentTree(g, source, tree', parent', dist')
    ensures Layered(queue', dist', L, k)
    ensures forall u :: u in tree' ==> u in processed + {current} || u in queue'
    ensures forall u :: u in processed + {current} ==> Explored(g, dist', u)
  {
    tree', visited', queue', parent', dist' := tree, visited, queue, parent, dist;
    var todo := g[current].Keys;
    while todo != {}
      invariant Scan(g, source, current, L, k, processed, visited', tree', queue', parent', dist', todo)
      invariant visited <= visited' && (visited' == visited ==> queue' == queue)
      decreases todo
    {
      var v :| v in todo;
      if v in visited' {
        ScanSkip(g, source, current, L, k, processed, visited', tree', queue', parent', dist', todo, v);
      } else {
        ScanVisit(g, source, current, L, k, processed, visited', tree', queue', parent', dist', todo, v);
        tree' := Discover(tree', current, v);
        visited' := visited' + {v};
        queue' := queue' + [v];
        parent' := parent'[v := current];
        dist' := dist'[v := L + 1];
      }
      todo := todo - {v};
    }
    ScanDone(g, source, current, L, k, processed, visited', tree', queue', parent', dist');
  }

  lemma {:induction false} Shrinks<V>(all: set<V>, before: set<V>, after: set<V>)
    requires before <= after <= all && before != after
    ensures all - after < all - before
  {
    var v :| v in after && v !in before;
    assert v in (all - before) - (all - after);
  }

  /**
   * bfs (GraphLib.java:21-43). The out-neighbours of a vertex are scanned in
   * any order (Java's hash order); every fact below holds for each order. A
   * source that is not a vertex of g makes the first outNeighbors call fail.
   */
  method Bfs<V, E>(g: Graph<V, E>, source: V) returns (r: Result<Tree<V, E>, GraphError>, ghost parent: map<V, V>, ghost dist: map<V, nat>)
    requires Closed(g)
    ensures r.Failure? <==> source !in g
    ensures r.Success? ==> r.value.Keys <= g.Keys
    ensures r.Success? ==> ParentTree(g, source, r.value, parent, dist)
    ensures r.Success? ==> Complete(g, r.value, dist)
  {
    parent, dist := map[], map[];
    if source !in g {
      return Failure(NullPointer), parent, dist;
    }
    var tree: Tree<V, E> := map[source := map[]];
    var visited := {source};
    var queue := [source];
    dist := map[source := 0];
    ghost var processed: set<V> := {};
    ghost var L: nat, k: nat := 0, 1;
    while queue != []
      invariant visited == tree.Keys && tree.Keys <= g.Keys
      invariant ParentTree(g, source, tree, parent, dist)
      invariant Layered(queue, dist, L, k)
      invariant processed <= tree.Keys
      invariant forall u :: u in tree ==> u in processed || u in queue
      invariant forall u :: u in processed ==> Explored(g, dist, u)
      decreases g.Keys - visited, |queue|
    {
      ghost var L1, k1 := Relevel(queue, dist, L, k);
      var current := queue[0];
      var rest := queue[1..];
      assert forall u :: u in queue ==> u == current || u in rest;
      assert Scan(g, source, current, L1, k1 - 1, processed, visited, tree, rest, parent, dist, g[current].Keys);
      ghost var visited0 := visited;
      tree, visited, queue, parent, dist :=
        ScanNeighbours(g, source, current, tree, visited, rest, parent, dist, processed, L1, k1 - 1);
      L, k := L1, k1 - 1;
      if visited != visited0 {
        Shrinks(g.Keys, visited0, visited);
      }
      processed := processed + {current};
    }
    return Success(tree), parent, dist;
  }

  // ---------------------------------------------------------------------------
  // Paths back to the root
  // ---------------------------------------------------------------------------

  /** Every edge goes to a vertex of lower rank: following edges always ends. */
  ghost predicate Ranked<V, L>(tree: Graph<V, L>, rank: map<V, nat>)
  {
    forall u :: u in tree ==> u in rank && forall w :: w in tree[u] ==> w in tree && w in rank && rank[w] < rank[u]
  }

  /** Each vertex of p is an out-neighbour of the one before it. */
  ghost predicate Chain<V, L>(tree: Graph<V, L>, p: seq<V>)
  {
    forall i :: 0 <= i < |p| - 1 ==> HasEdge(tree, p[i], p[i + 1])
  }

  lemma {:induction false} ChainSnoc<V, L>(tree: Graph<V, L>, p: seq<V>, w: V)
    requires Chain(tree, p) && p != [] && HasEdge(tree, p[|p| - 1], w)
    ensures Chain(tree, p + [w])
  {
    assert forall i :: 0 <= i < |p| ==> (p + [w])[i] == p[i];
  }

  /** path lists, after v, an out-neighbour of the vertex before it at each
      step, and ends at a vertex without out-edges (a root). */
  ghost predicate RootPath<V, L>(tree: Graph<V, L>, v: V, path: seq<V>)
  {
    var p := [v] + path;
    v in tree && Chain(tree, p) && p[|p| - 1] in tree && tree[p[|p| - 1]] == map[]
  }

  /**
   * getPath (GraphLib.java:52-77): nothing for a tree without edges or a vertex
   * it lacks; otherwise the vertices met by following out-edges from v until
   * a vertex without any, v itself excluded. Where a vertex has several
   * out-neighbours the first in iteration order is taken; any may be.
   * The Java loop does not end on a cyclic graph; the ghost rank says
   * that following edges ends.
   */
  method GetPath<V, L>(tree: Graph<V, L>, v: V, ghost rank: map<V, nat>) returns (path: seq<V>)
    requires Ranked(tree, rank)
    ensures NoEdges(tree) || v !in tree ==> path == []
    ensures !NoEdges(tree) && v in tree ==> RootPath(tree, v, path)
  {
    if NoEdges(tree) {
      return [];
    }
    if v !in tree {
      return [];
    }
    path := [];
    var current := v;
    ghost var walked := [v];
    while |tree[current]| > 0
      invariant walked == [v] + path && current in tree && walked[|walked| - 1] == current
      invariant Chain(tree, walked)
      decreases rank[current]
    {
      var next :| next in tree[current];
      ChainSnoc(tree, walked, next);
      walked := walked + [next];
      path := path + [next];
      current := next;
    }
  }

  // ---------------------------------------------------------------------------
  // Missing vertices and total separation
  // ---------------------------------------------------------------------------

  /** missingVertices (GraphLib.java:87-97), scanning the vertices in any order. */
  method MissingVertices<V, E1, E2>(tree: Graph<V, E1>, subgraph: Graph<V, E2>) returns (missing: set<V>)
    ensures forall v :: v in missing <==> v in tree && v !in subgraph
  {
    missing := {};
    var todo := tree.Keys;
    while todo != {}
      invariant todo <= tree.Keys
      invariant forall v :: v in missing <==> v in tree && v !in todo && v !in subgraph
      decreases todo
    {
      var v :| v in todo;
      todo := todo - {v};
      if v !in subgraph {
        missing := missing + {v};
      }
    }
  }

  /** The vertices ranked above x: a measure that shrinks from a vertex to
      its in-neighbours. */
  ghost function Above<V, L>(tree: Graph<V, L>, rank: map<V, nat>, x: V): set<V>
    requires Ranked(tree, rank) && x in tree
  {
    set u | u in tree && rank[u] > rank[x]
  }

  lemma {:induction false} AboveShrinks<V(!new), L>(tree: Graph<V, L>, rank: map<V, nat>, root: V, c: V)
    requires Ranked(tree, rank) && root in tree && c in InNeighbors(tree, root)
    ensures Above(tree, rank, c) < Above(tree, rank, root)
  {
    assert c in Above(tree, rank, root) - Above(tree, rank, c);
  }

  /**
   * totalSeparation (GraphLib.java:119-129): total for the root plus, for
   * every in-neighbour, its own total separation one level further. The
   * in-neighbours are taken in any order. The Java recursion ends only on
   * an in-acyclic graph; the ghost rank says so.
   */
  ghost function TotalSeparation<V(!new), L>(tree: Graph<V, L>, rank: map<V, nat>, root: V, total: int): int
    requires Ranked(tree, rank) && root in tree
    decreases Above(tree, rank, root), 1
  {
    total + SeparationOver(tree, rank, root, InNeighbors(tree, root), total + 1)
  }

  /** The sum of the total separations of some in-neighbours of root. */
  ghost function SeparationOver<V(!new), L>(tree: Graph<V, L>, rank: map<V, nat>, root: V, children: set<V>, total: int): int
    requires Ranked(tree, rank) && root in tree && children <= InNeighbors(tree, root)
    decreases Above(tree, rank, root), 0, children
  {
    if children == {} then 0
    else
      var c :| c in children;
      AboveShrinks(tree, rank, root, c);
      TotalSeparation(tree, rank, c, total) + SeparationOver(tree, rank, root, children - {c}, total)
  }

  /** averageSeparation (GraphLib.java:106-110): the total separation from
      root over the number of vertices of the tree, as an exact quotient. */
  ghost function AverageSeparation<V(!new), L>(tree: Graph<V, L>, rank: map<V, nat>, root: V): real
    requires Ranked(tree, rank) && root in tree
  {
    assert root in tree.Keys;
    TotalSeparation(tree, rank, root, 0) as real / |tree| as real
  }
}
