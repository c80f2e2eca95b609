/**
 * The queries of the Kevin Bacon game over the co-star graph and the
 * breadth-first tree of the current center of the universe: the centers
 * ranked by average separation, the actors by degree or by separation, the
 * actors the center cannot reach, and moving the center.
 */
module BaconGame {
  import opened Wrappers
  import opened GraphLib
  import opened GraphLibProperties
  import opened BuildBaconGraph

  /** A vertex with its average separation (Map.Entry<String, Double>). */
  type Center = (string, real)

  datatype GameError = IndexOutOfBounds | GraphFailure(cause: GraphError)

  // ---------------------------------------------------------------------------
  // Sorting centers
  // ---------------------------------------------------------------------------

  ghost predicate SortedByValue(s: seq<Center>)
  {
    forall i, j :: 0 <= i < j < |s| ==> s[i].1 <= s[j].1
  }

  /** The entries of s with value v, in their order in s. */
  function WithValue(s: seq<Center>, v: real): (r: seq<Center>)
    ensures |r| <= |s|
  {
    if s == [] then [] else (if s[0].1 == v then [s[0]] else []) + WithValue(s[1..], v)
  }

  /** t orders the entries of s as s does within every value. A sorted t with
      this property is the stable sort of s. */
  ghost predicate SameWithinValues(t: seq<Center>, s: seq<Center>)
  {
    forall v :: WithValue(t, v) == WithValue(s, v)
  }

  lemma {:induction false} WithValueConcat(a: seq<Center>, b: seq<Center>, v: real)
    ensures WithValue(a + b, v) == WithValue(a, v) + WithValue(b, v)
  {
    if a != [] {
      assert (a + b)[1..] == a[1..] + b;
      WithValueConcat(a[1..], b, v);
    } else {
      assert a + b == b;
    }
  }

  /** WithValue keeps entries of s with value v and no others. */
  lemma {:induction false} WithValueMember(s: seq<Center>, v: real, e: Center)
    ensures e in WithValue(s, v) <==> e in s && e.1 == v
  {
    if s != [] {
      WithValueMember(s[1..], v, e);
      assert s == [s[0]] + s[1..];
    }
  }

  lemma {:induction false} PairWithValue(x: Center, y: Center, v: real)
    requires x.1 != y.1
    ensures WithValue([x, y], v) == WithValue([y, x], v)
  {
    assert [x, y][1..] == [y] && [y, x][1..] == [x];
    assert [x][1..] == [] && [y][1..] == [];
  }

  /** Swapping two neighbours of different values keeps every value's order. */
  lemma {:induction false} SwapKeeps(s: seq<Center>, j: int)
    requires 0 <= j < |s| - 1 && s[j].1 != s[j + 1].1
    ensures SameWithinValues(s[j := s[j + 1]][j + 1 := s[j]], s)
  {
    var p, x, y, q := s[..j], s[j], s[j + 1], s[j + 2..];
    var t := s[j := y][j + 1 := x];
    assert s == p + [x, y] + q;
    assert t == p + [y, x] + q;
    forall v
      ensures WithValue(t, v) == WithValue(s, v)
    {
      WithValueConcat(p + [x, y], q, v);
      WithValueConcat(p, [x, y], v);
      WithValueConcat(p + [y, x], q, v);
      WithValueConcat(p, [y, x], v);
      PairWithValue(x, y, v);
    }
  }

  lemma {:induction false} CountWithValue(s: seq<Center>, e: Center)
    ensures multiset(s)[e] == multiset(WithValue(s, e.1))[e]
  {
    if s != [] {
      assert s == [s[0]] + s[1..];
      CountWithValue(s[1..], e);
    }
  }

  /** Keeping every value's order keeps the entries: t is a permutation of s. */
  lemma {:induction false} SameWithinValuesPermutation(t: seq<Center>, s: seq<Center>)
    requires SameWithinValues(t, s)
    ensures multiset(t) == multiset(s)
  {
    forall e
      ensures multiset(t)[e] == multiset(s)[e]
    {
      CountWithValue(t, e);
      CountWithValue(s, e);
    }
  }

  /** The first entry of s is the first of its value. */
  lemma {:induction false} HeadWithValue(s: seq<Center>)
    requires s != []
    ensures WithValue(s, s[0].1) != [] && WithValue(s, s[0].1)[0] == s[0]
  {
  }

  /** Two sorted sequences that agree within every value start alike. */
  lemma {:induction false} HeadsAgree(t: seq<Center>, u: seq<Center>)
    requires SortedByValue(t) && SortedByValue(u) && SameWithinValues(t, u)
    requires t != [] && u != []
    ensures t[0] == u[0]
  {
    HeadWithValue(t);
    HeadWithValue(u);
    assert WithValue(t, t[0].1) == WithValue(u, t[0].1);
    assert WithValue(t, u[0].1) == WithValue(u, u[0].1);
    WithValueMember(u, t[0].1, t[0]);
    WithValueMember(t, u[0].1, u[0]);
  }

  /** ... and their tails agree within every value too. */
  lemma {:induction false} TailsAgree(t: seq<Center>, u: seq<Center>)
    requires SameWithinValues(t, u) && t != [] && u != [] && t[0] == u[0]
    ensures SameWithinValues(t[1..], u[1..])
  {
    forall v
      ensures WithValue(t[1..], v) == WithValue(u[1..], v)
    {
      var p := if t[0].1 == v then [t[0]] else [];
      assert WithValue(t, v) == p + WithValue(t[1..], v);
      assert WithValue(u, v) == p + WithValue(u[1..], v);
      assert WithValue(t[1..], v) == WithValue(t, v)[|p|..];
      assert WithValue(u[1..], v) == WithValue(u, v)[|p|..];
    }
  }

  /** Sorting by value and keeping every value's order fixes the result: two
      sorted sequences that agree within every value are equal, so there is
      one stable sort of a sequence. */
  lemma {:induction false} StableSortUnique(t: seq<Center>, u: seq<Center>)
    requires SortedByValue(t) && SortedByValue(u) && SameWithinValues(t, u)
    ensures t == u
    decreases |t|
  {
    if t == [] && u != [] {
      HeadWithValue(u);
    } else if t != [] && u == [] {
      HeadWithValue(t);
    } else if t != [] {
      HeadsAgree(t, u);
      TailsAgree(t, u);
      StableSortUnique(t[1..], u[1..]);
      assert t == [t[0]] + t[1..] && u == [u[0]] + u[1..];
    }
  }

  /** s with its neighbours at j and j + 1 exchanged. */
  function Swap(s: seq<Center>, j: int): (r: seq<Center>)
    requires 0 <= j < |s| - 1
    ensures |r| == |s| && r[j] == s[j + 1] && r[j + 1] == s[j]
    ensures forall k :: 0 <= k < |s| && k != j && k != j + 1 ==> r[k] == s[k]
  {
    s[j := s[j + 1]][j + 1 := s[j]]
  }

  /** One step of the inner loop: exchange s[j] and s[j + 1] when the first
      is strictly larger. */
  function CompareSwap(s: seq<Center>, j: int): (r: seq<Center>)
    requires 0 <= j < |s| - 1
    ensures |r| == |s| && r[j].1 <= r[j + 1].1
  {
    if s[j].1 > s[j + 1].1 then Swap(s, j) else s
  }

  /** After the passes so far: from m on, s is sorted and holds the largest
      values. */
  ghost predicate Bubbled(s: seq<Center>, m: int)
  {
    0 <= m <= |s| &&
    (forall k, l :: m <= k < l < |s| ==> s[k].1 <= s[l].1) &&
    (forall k, l :: 0 <= k < m <= l < |s| ==> s[k].1 <= s[l].1)
  }

  /** ... and within the current pass, s[j] is the largest of s[..j + 1]. */
  ghost predicate Passing(s: seq<Center>, m: int, j: int)
  {
    Bubbled(s, m) && 0 <= j < m && forall k :: 0 <= k <= j ==> s[k].1 <= s[j].1
  }

  /** The state of the inner loop: Passing, with every value's order kept. */
  ghost predicate InPass(s: seq<Center>, original: seq<Center>, m: int, j: int)
  {
    Passing(s, m, j) && SameWithinValues(s, original)
  }

  /** One compare-and-swap carries the largest value one place on and keeps
      every value's order. */
  lemma {:induction false} PassStep(s: seq<Center>, original: seq<Center>, m: int, j: int)
    requires InPass(s, original, m, j) && j < m - 1
    ensures InPass(CompareSwap(s, j), original, m, j + 1)
  {
    if s[j].1 > s[j + 1].1 {
      SwapKeeps(s, j);
    }
  }

  /** At the end of a pass the largest value of s[..m] is at m - 1. */
  lemma {:induction false} PassEnd(s: seq<Center>, m: int)
    requires Passing(s, m, m - 1)
    ensures Bubbled(s, m - 1)
  {
  }

  /** The inner loop of sortCenters (BaconGame.java:74-80): one pass over
      list[..m] that carries its largest value to m - 1. */
  method BubblePass(list: array<Center>, m: int)
    requires 1 <= m && Bubbled(list[..], m)
    modifies list
    ensures Bubbled(list[..], m - 1)
    ensures SameWithinValues(list[..], old(list[..]))
  {
    var j := 0;
    while j < m - 1
      invariant 0 <= j <= m - 1
      invariant InPass(list[..], old(list[..]), m, j)
    {
      ghost var next := CompareSwap(list[..], j);
      PassStep(list[..], old(list[..]), m, j);
      if list[j].1 > list[j + 1].1 {
        list[j], list[j + 1] := list[j + 1], list[j];
      }
      assert list[..] == next;
      j := j + 1;
    }
    PassEnd(list[..], m);
  }

  /**
   * sortCenters (BaconGame.java:72-83): bubble sort by value, in place,
   * swapping neighbours only when the first is strictly larger. The list ends
   * sorted, and within every value the entries keep their order, so it is the
   * stable sort of the input and a permutation of it.
   */
  method SortCenters(list: array<Center>)
    modifies list
    ensures SortedByValue(list[..])
    ensures SameWithinValues(list[..], old(list[..]))
    ensures multiset(list[..]) == multiset(old(list[..]))
  {
    var n := list.Length;
    var i := 0;
    while i < n
      invariant 0 <= i <= n
      invariant SameWithinValues(list[..], old(list[..]))
      invariant Bubbled(list[..], n - i)
    {
      BubblePass(list, n - i);
      i := i + 1;
    }
    SameWithinValuesPermutation(list[..], old(list[..]));
  }

  // ---------------------------------------------------------------------------
  // topCenters: filter, sort, slice
  // ---------------------------------------------------------------------------

  /** The entries of s whose value is not 0.0, in their order in s. */
  function NonZero(s: seq<Center>): (r: seq<Center>)
    ensures forall e :: multiset(r)[e] == if e.1 != 0.0 then multiset(s)[e] else 0
  {
    if s == [] then []
    else
      var last := s[|s| - 1];
      assert s == s[..|s| - 1] + [last];
      NonZero(s[..|s| - 1]) + if last.1 != 0.0 then [last] else []
  }

  /** The filtering loop of topCenters (BaconGame.java:40-45). */
  method KeepNonZero(entries: seq<Center>) returns (sortedCenters: seq<Center>)
    ensures sortedCenters == NonZero(entries)
  {
    sortedCenters := [];
    for i := 0 to |entries|
      invariant sortedCenters == NonZero(entries[..i])
    {
      assert entries[..i + 1][..i] == entries[..i];
      if entries[i].1 != 0.0 {
        sortedCenters := sortedCenters + [entries[i]];
      }
    }
    assert entries[..|entries|] == entries;
  }

  /**
   * topCenters (BaconGame.java:30-65) given the entries of the average
   * separation map in its iteration order. sorted is the stable sort of the
   * non-zero entries; a positive number takes the first number of them, a
   * negative number the last -number of them, largest first, and 0 takes
   * all. Asking for more entries than there are fails, as get does.
   */
  method TopCenters(averages: seq<Center>, number: int) returns (r: Result<seq<Center>, GameError>, ghost sorted: seq<Center>)
    ensures SortedByValue(sorted) && SameWithinValues(sorted, NonZero(averages))
    ensures multiset(sorted) == multiset(NonZero(averages))
    ensures r.Failure? <==> number > |sorted| || -number > |sorted|
    ensures r.Failure? ==> r.error == IndexOutOfBounds
    ensures r.Success? && number > 0 ==> r.value == sorted[..number]
    ensures r.Success? && number < 0 ==>
      |r.value| == -number && forall i :: 0 <= i < -number ==> r.value[i] == sorted[|sorted| - 1 - i]
    ensures r.Success? && number == 0 ==> r.value == sorted
  {
    var sortedCenters := SortNonZero(averages);
    sorted := sortedCenters;
    if number > 0 {
      if number > |sortedCenters| {
        return Failure(IndexOutOfBounds), sorted;
      }
      var best := Best(sortedCenters, number);
      r := Success(best);
    } else if number < 0 {
      if -number > |sortedCenters| {
        return Failure(IndexOutOfBounds), sorted;
      }
      var worst := Worst(sortedCenters, -number);
      r := Success(worst);
    } else {
      r := Success(sortedCenters);
    }
  }

  /** BaconGame.java:40-47: the non-zero entries, copied into a list and
      sorted by sortCenters. */
  method SortNonZero(averages: seq<Center>) returns (sortedCenters: seq<Center>)
    ensures SortedByValue(sortedCenters) && SameWithinValues(sortedCenters, NonZero(averages))
    ensures multiset(sortedCenters) == multiset(NonZero(averages))
  {
    var kept := KeepNonZero(averages);
    var list := new Center[|kept|](i requires 0 <= i < |kept| => kept[i]);
    assert list[..] == kept;
    SortCenters(list);
    sortedCenters := list[..];
  }

  /** The loop for a positive number (BaconGame.java:52-55). */
  method Best(sortedCenters: seq<Center>, number: int) returns (best: seq<Center>)
    requires 0 <= number <= |sortedCenters|
    ensures best == sortedCenters[..number]
  {
    best := [];
    for i := 0 to number
      invariant best == sortedCenters[..i]
    {
      best := best + [sortedCenters[i]];
    }
  }

  /** The loop for a negative number, given as count = -number
      (BaconGame.java:58-61). */
  method Worst(sortedCenters: seq<Center>, count: int) returns (worst: seq<Center>)
    requires 0 <= count <= |sortedCenters|
    ensures |worst| == count
    ensures forall i :: 0 <= i < count ==> worst[i] == sortedCenters[|sortedCenters| - 1 - i]
  {
    worst := [];
    for i := 0 to count
      invariant |worst| == i && forall k :: 0 <= k < i ==> worst[k] == sortedCenters[|sortedCenters| - 1 - k]
    {
      worst := worst + [sortedCenters[|sortedCenters| - i - 1]];
    }
  }

  /** The entries a positive topCenters keeps have no larger value than any it
      leaves out; those of a negative one no smaller. */
  lemma {:induction false} TopCentersExtremes(sorted: seq<Center>, number: int, chosen: seq<Center>)
    requires SortedByValue(sorted) && 0 < number <= |sorted| && chosen == sorted[..number]
    ensures forall i, k :: 0 <= i < number <= k < |sorted| ==> chosen[i].1 <= sorted[k].1
  {
  }

  lemma {:induction false} BottomCentersExtremes(sorted: seq<Center>, number: int, chosen: seq<Center>)
    requires SortedByValue(sorted) && 0 < number <= |sorted| && |chosen| == number
    requires forall i :: 0 <= i < number ==> chosen[i] == sorted[|sorted| - 1 - i]
    ensures forall i, j :: 0 <= i < j < number ==> chosen[j].1 <= chosen[i].1
    ensures forall i, k :: 0 <= i < number && 0 <= k < |sorted| - number ==> sorted[k].1 <= chosen[i].1
  {
  }

  // ---------------------------------------------------------------------------
  // Lists of (actor, count) entries
  // ---------------------------------------------------------------------------

  /** An actor with a degree or a separation (Map.Entry<String, Integer>). */
  type Entry = (string, int)

  ghost predicate SortedByCount(s: seq<Entry>)
  {
    forall i, j :: 0 <= i < j < |s| ==> s[i].1 <= s[j].1
  }

  /** s holds every entry of m once and nothing else. */
  ghost predicate Tabulates(s: seq<Entry>, m: map<string, int>)
  {
    forall e :: multiset(s)[e] == if e.0 in m && e.1 == m[e.0] then 1 else 0
  }

  /** Every entry of s has a count of at least c. */
  ghost predicate AtLeast(s: seq<Entry>, c: int)
  {
    forall x :: x in s ==> c <= x.1
  }

  lemma {:induction false} SortedHead(s: seq<Entry>)
    requires SortedByCount(s) && s != []
    ensures SortedByCount(s[1..]) && AtLeast(s[1..], s[0].1)
  {
  }

  lemma {:induction false} PrependSorted(x: Entry, s: seq<Entry>)
    requires SortedByCount(s) && AtLeast(s, x.1)
    ensures SortedByCount([x] + s)
  {
    forall i, j | 0 <= i < j < |s| + 1
      ensures ([x] + s)[i].1 <= ([x] + s)[j].1
    {
      if i > 0 {
        assert ([x] + s)[i] == s[i - 1];
      }
      assert ([x] + s)[j] == s[j - 1] && s[j - 1] in s;
    }
  }

  /** e placed into the sorted s before the first entry with a larger count. */
  function InsertByCount(e: Entry, s: seq<Entry>): (r: seq<Entry>)
    requires SortedByCount(s)
    ensures SortedByCount(r) && multiset(r) == multiset(s) + multiset{e}
    ensures forall x :: x in r ==> x in s || x == e
  {
    if s == [] || e.1 <= s[0].1 then
      PrependSorted(e, s);
      [e] + s
    else
      SortedHead(s);
      var rest := InsertByCount(e, s[1..]);
      assert s == [s[0]] + s[1..];
      assert AtLeast(rest, s[0].1);
      PrependSorted(s[0], rest);
      [s[0]] + rest
  }

  /**
   * List.sort with the comparator p1.getValue() - p2.getValue() used by
   * actorsByDegreeBetween and actorsByNonInfiniteSeparation
   * (BaconGame.java:105, 142): the entries sorted by non-decreasing count.
   * Counts are degrees and separations, non-negative, so the subtraction
   * does not overflow.
   */
  function SortByCount(s: seq<Entry>): (r: seq<Entry>)
    ensures SortedByCount(r) && multiset(r) == multiset(s)
  {
    if s == [] then []
    else
      assert s == [s[0]] + s[1..];
      InsertByCount(s[0], SortByCount(s[1..]))
  }

  /** sortedDegrees.addAll(degreeMap.entrySet()): the entries of m in the
      map's iteration order, which is left open. */
  method EntryList(m: map<string, int>) returns (s: seq<Entry>)
    ensures Tabulates(s, m)
  {
    s := [];
    var todo := m.Keys;
    while todo != {}
      invariant todo <= m.Keys
      invariant forall e :: multiset(s)[e] == if e.0 in m && e.0 !in todo && e.1 == m[e.0] then 1 else 0
      decreases todo
    {
      var k :| k in todo;
      s := s + [(k, m[k])];
      todo := todo - {k};
    }
  }

  /** Sorting keeps the entries. */
  lemma {:induction false} SortTabulates(s: seq<Entry>, m: map<string, int>)
    requires Tabulates(s, m)
    ensures Tabulates(SortByCount(s), m)
  {
  }

  /** getPath's list on a bfs tree is as long as the vertex's level. */
  lemma {:induction false} PathLength(g: BaconGraph, root: string, tree: Tree<string, Titles>, parent: map<string, string>,
                   dist: map<string, nat>, v: string, path: seq<string>)
    requires ParentTree(g, root, tree, parent, dist) && v in tree
    requires NoEdges(tree) ==> path == []
    requires !NoEdges(tree) ==> RootPath(tree, v, path)
    ensures |path| == dist[v]
  {
    GetPathOnBfsTree(g, root, tree, parent, dist, v, path);
  }

  /** The loop of actorsByNonInfiniteSeparation (BaconGame.java:131-138):
      the vertices of the tree whose path from the root has a length in
      [low, high], mapped to that length. */
  method SeparationsBetween(ghost g: BaconGraph, ghost root: string, tree: Tree<string, Titles>, ghost parent: map<string, string>,
                            ghost dist: map<string, nat>, low: int, high: int) returns (separationMap: map<string, int>)
    requires ParentTree(g, root, tree, parent, dist)
    ensures forall v :: v in separationMap <==> v in tree && low <= dist[v] <= high
    ensures forall v :: v in separationMap ==> separationMap[v] == dist[v]
  {
    BfsRanked(g, root, tree, parent, dist);
    separationMap := map[];
    var todo := tree.Keys;
    while todo != {}
      invariant todo <= tree.Keys
      invariant forall v :: v in separationMap <==> v in tree && v !in todo && low <= dist[v] <= high
      invariant forall v :: v in separationMap ==> separationMap[v] == dist[v]
      decreases todo
    {
      var currentVertex :| currentVertex in todo;
      var path := GetPath(tree, currentVertex, dist);
      PathLength(g, root, tree, parent, dist, currentVertex, path);
      var separation := |path|;
      if separation >= low && separation <= high {
        separationMap := separationMap[currentVertex := separation];
      }
      todo := todo - {currentVertex};
    }
  }

  // ---------------------------------------------------------------------------
  // The game
  // ---------------------------------------------------------------------------

  /** The first center of the universe. */
  const KevinBacon: string := "Kevin Bacon"

  /**
   * A game: the co-star graph, the breadth-first tree of the current center
   * and the name of that center. The ghost fields record the vertex the tree
   * was grown from and the parent and level maps that bfs found; the tree is
   * only replaced when bfs succeeds, so root and universeCenter can differ.
   */
  class BaconGame {
    var baconGraph: BaconGraph
    var shortestPathBacon: Tree<string, Titles>
    var universeCenter: string
    ghost var root: string
    ghost var parent: map<string, string>
    ghost var dist: map<string, nat>

    /** shortestPathBacon is a complete breadth-first tree of baconGraph from root. */
    ghost predicate Valid()
      reads this
    {
      Closed(baconGraph) &&
      ParentTree(baconGraph, root, shortestPathBacon, parent, dist) &&
      Complete(baconGraph, shortestPathBacon, dist)
    }

    constructor (g: BaconGraph, tree: Tree<string, Titles>, center: string,
                 ghost parent: map<string, string>, ghost dist: map<string, nat>)
      ensures baconGraph == g && shortestPathBacon == tree && universeCenter == center
      ensures root == center && this.parent == parent && this.dist == dist
    {
      baconGraph, shortestPathBacon, universeCenter := g, tree, center;
      root, this.parent, this.dist := center, parent, dist;
    }

    /**
     * The BaconGame constructor (BaconGame.java:16, 20-23): build the graph,
     * then the bfs tree from Kevin Bacon. It fails when the graph cannot be
     * built or Kevin Bacon is not one of its vertices.
     */
    static method Create(actors: map<string, string>, movies: map<string, string>,
                         movieActors: map<string, set<string>>) returns (r: Result<BaconGame, GameError>)
      ensures r.Failure? <==> UnknownCoStar(actors, movieActors) || KevinBacon !in actors.Values
      ensures r.Success? ==> fresh(r.value) && r.value.Valid()
      ensures r.Success? ==> CoStarGraph(actors, movies, movieActors, r.value.baconGraph)
      ensures r.Success? ==> r.value.universeCenter == KevinBacon && r.value.root == KevinBacon
    {
      var built := BuildGraph(actors, movies, movieActors);
      if built.Failure? {
        return Failure(GraphFailure(built.error));
      }
      var g := built.value;
      CoStarGraphUndirected(actors, movies, movieActors, g);
      var tree;
      ghost var parent, dist;
      tree, parent, dist := Bfs(g, KevinBacon);
      if tree.Failure? {
        return Failure(GraphFailure(tree.error));
      }
      var game := new BaconGame(g, tree.value, KevinBacon, parent, dist);
      r := Success(game);
    }

    /**
     * actorsByDegreeBetween (BaconGame.java:91-107): every actor whose
     * number of co-stars lies in [low, high], once, with that number, sorted
     * by it.
     */
    method ActorsByDegreeBetween(low: int, high: int) returns (sortedDegrees: seq<Entry>)
      ensures SortedByCount(sortedDegrees)
      ensures forall e ::
                multiset(sortedDegrees)[e] == (if e.0 in baconGraph && e.1 == |baconGraph[e.0]| && low <= e.1 <= high then 1 else 0)
    {
      var degreeMap: map<string, int> := map[];
      var todo := baconGraph.Keys;
      while todo != {}
        invariant todo <= baconGraph.Keys
        invariant forall v :: v in degreeMap <==> v in baconGraph && v !in todo && low <= |baconGraph[v]| <= high
        invariant forall v :: v in degreeMap ==> degreeMap[v] == |baconGraph[v]|
        decreases todo
      {
        var currentVertex :| currentVertex in todo;
        var toCompareDegree := |baconGraph[currentVertex]|;
        if toCompareDegree >= low && toCompareDegree <= high {
          degreeMap := degreeMap[currentVertex := toCompareDegree];
        }
        todo := todo - {currentVertex};
      }
      var entries := EntryList(degreeMap);
      sortedDegrees := SortByCount(entries);
      SortTabulates(entries, degreeMap);
    }

    /**
     * actorsWithInfiniteSep (BaconGame.java:113-118): the vertices missing
     * from the tree, which are exactly the actors the tree's root cannot
     * reach.
     */
    method ActorsWithInfiniteSep() returns (infSep: set<string>)
      requires Valid()
      ensures forall v :: v in infSep <==> v in baconGraph && !Reachable(baconGraph, root, v)
    {
      infSep := MissingVertices(baconGraph, shortestPathBacon);
      forall v | v in baconGraph
        ensures v in shortestPathBacon <==> Reachable(baconGraph, root, v)
      {
        BfsReachable(baconGraph, root, shortestPathBacon, parent, dist, v);
      }
    }

    /**
     * actorsByNonInfiniteSeparation (BaconGame.java:126-144): every actor the
     * root reaches whose separation, the length of its path in the tree, lies
     * in [low, high], once, with that separation, sorted by it. The
     * separation is the actor's distance from the root in baconGraph.
     */
    method ActorsByNonInfiniteSeparation(low: int, high: int) returns (sortedSeparations: seq<Entry>)
      requires Valid()
      ensures SortedByCount(sortedSeparations)
      ensures forall e ::
                multiset(sortedSeparations)[e] == (if low <= e.1 <= high && 0 <= e.1 && Distance(baconGraph, root, e.0, e.1) then 1 else 0)
    {
      var tree := shortestPathBacon;
      var separationMap := SeparationsBetween(baconGraph, root, tree, parent, dist, low, high);
      var entries := EntryList(separationMap);
      sortedSeparations := SortByCount(entries);
      SortTabulates(entries, separationMap);
      forall e: Entry | 0 <= e.1
        ensures e.0 in tree && e.1 == dist[e.0] <==> Distance(baconGraph, root, e.0, e.1)
      {
        BfsSeparation(baconGraph, root, tree, parent, dist, e.0, e.1);
      }
    }

    /**
     * makeCenterUniverse (BaconGame.java:146-149): the center's name is set
     * first; bfs from it then replaces the tree, or throws when name is not
     * a vertex and leaves the old tree in place. The graph never changes.
     */
    method MakeCenterUniverse(name: string) returns (err: Option<GameError>)
      requires Valid()
      modifies this
      ensures Valid()
      ensures universeCenter == name && baconGraph == old(baconGraph)
      ensures err.Some? <==> name !in baconGraph
      ensures err.None? ==> root == name
      ensures err.Some? ==> shortestPathBacon == old(shortestPathBacon) && root == old(root) &&
                            parent == old(parent) && dist == old(dist)
    {
      universeCenter := name;
      var tree;
      ghost var p, d;
      tree, p, d := Bfs(baconGraph, universeCenter);
      if tree.Failure? {
        return Some(GraphFailure(tree.error));
      }
      shortestPathBacon := tree.value;
      root, parent, dist := name, p, d;
      err := None;
    }
  }
}
