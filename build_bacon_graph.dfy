/**
 * buildGraph of the Kevin Bacon game, from the three maps the file readers
 * build: actor ID to actor name, movie ID to movie name, and movie ID to the
 * IDs of its cast. Every actor name becomes a vertex, and every two distinct
 * cast members of a movie are joined by an undirected edge whose label is the
 * set of names of the movies they share.
 */
module BuildBaconGraph {
  import opened Wrappers
  import opened GraphLib

  /** An edge label: movie names, None where movies.get gives Java's null. */
  type Titles = set<Option<string>>

  type BaconGraph = Graph<string, Titles>

  /** (movie ID, actorx, actory): one visit of the two inner loops. */
  type Casting = (string, string, string)

  /** movies.get(movie). */
  function Title(movies: map<string, string>, m: string): Option<string>
  {
    if m in movies then Some(movies[m]) else None
  }

  // ---------------------------------------------------------------------------
  // What the graph should be
  // ---------------------------------------------------------------------------

  /** Two distinct IDs of the cast of movie m name a and b, in this order. */
  ghost predicate CastTogether(actors: map<string, string>, movieActors: map<string, set<string>>,
                               m: string, a: string, b: string)
  {
    m in movieActors &&
    exists x, y :: x in movieActors[m] && y in movieActors[m] && x != y &&
      x in actors && y in actors && actors[x] == a && actors[y] == b
  }

  /** Some movie casts a and b together. */
  ghost predicate CoStar(actors: map<string, string>, movieActors: map<string, set<string>>, a: string, b: string)
  {
    exists m :: CastTogether(actors, movieActors, m, a, b)
  }

  /** The names of the movies that cast a and b together. */
  ghost function Shared(actors: map<string, string>, movies: map<string, string>,
                        movieActors: map<string, set<string>>, a: string, b: string): Titles
  {
    set m | m in movieActors && CastTogether(actors, movieActors, m, a, b) :: Title(movies, m)
  }

  /** g is the co-star graph: a vertex per actor name, an edge between two
      names exactly when some movie casts them together, labelled with the
      names of those movies. */
  ghost predicate CoStarGraph(actors: map<string, string>, movies: map<string, string>,
                              movieActors: map<string, set<string>>, g: BaconGraph)
  {
    g.Keys == actors.Values &&
    (forall a, b :: a in g ==> (b in g[a] <==> CoStar(actors, movieActors, a, b))) &&
    (forall a, b :: a in g && b in g[a] ==> g[a][b] == Shared(actors, movies, movieActors, a, b))
  }

  /** Some movie lists an ID that is not an actor next to another cast member:
      then hasEdge or insertUndirected dereferences a missing vertex. */
  ghost predicate UnknownCoStar(actors: map<string, string>, movieActors: map<string, set<string>>)
  {
    exists t :: CoCast(movieActors, t) && (t.1 !in actors || t.2 !in actors)
  }

  // ---------------------------------------------------------------------------
  // Graph updates
  // ---------------------------------------------------------------------------

  /** The edges u -> v and v -> u, both carrying e; every other edge kept. */
  function SetUndirected(g: BaconGraph, u: string, v: string, e: Titles): (r: BaconGraph)
    requires u in g && v in g
    ensures r.Keys == g.Keys && v in r[u] && u in r[v] && r[u][v] == e && r[v][u] == e
    ensures forall w, z :: w in g ==> (z in r[w] <==> z in g[w] || (w == u && z == v) || (w == v && z == u))
    ensures forall w, z :: w in g && z in g[w] && !(w == u && z == v) && !(w == v && z == u) ==> r[w][z] == g[w][z]
  {
    var g1 := g[u := g[u][v := e]];
    g1[v := g1[v][u := e]]
  }

  /** The body of the inner loop for two cast members named a and b
      (BuildBaconGraph.java:42-45): without an edge, insertUndirected with an
      empty label; then the title goes into the label. insertUndirected puts
      one label set in both directions, so adding to it extends both. */
  function Link(g: BaconGraph, a: string, b: string, title: Option<string>): (r: BaconGraph)
    requires a in g && b in g
    requires b in g[a] ==> a in g[b] && g[b][a] == g[a][b]
    ensures r.Keys == g.Keys && b in r[a] && a in r[b] && r[a][b] == r[b][a]
    ensures r[a][b] == (if b in g[a] then g[a][b] else {}) + {title}
    ensures forall w, z :: w in g ==> (z in r[w] <==> z in g[w] || (w == a && z == b) || (w == b && z == a))
    ensures forall w, z :: w in g && z in g[w] && !(w == a && z == b) && !(w == b && z == a) ==> r[w][z] == g[w][z]
  {
    var g1 := if b in g[a] then g else SetUndirected(g, a, b, {});
    SetUndirected(g1, a, b, g1[a][b] + {title})
  }

  // ---------------------------------------------------------------------------
  // Loop state
  // ---------------------------------------------------------------------------

  /** Casting t joins the actors named a and b, in either order. */
  ghost predicate Joins(actors: map<string, string>, t: Casting, a: string, b: string)
  {
    t.1 in actors && t.2 in actors &&
    ((actors[t.1] == a && actors[t.2] == b) || (actors[t.1] == b && actors[t.2] == a))
  }

  /** The movies of the castings in d that join a and b. */
  ghost function Label(actors: map<string, string>, movies: map<string, string>, d: set<Casting>,
                       a: string, b: string): Titles
  {
    set t | t in d && Joins(actors, t, a, b) :: Title(movies, t.0)
  }

  /** The edge a -> b is there exactly when a casting of d joins a and b,
      and is labelled with the movies of those castings. */
  ghost predicate EdgeMatches(actors: map<string, string>, movies: map<string, string>, g: BaconGraph,
                              d: set<Casting>, a: string, b: string)
    requires a in g
  {
    (b in g[a] <==> Label(actors, movies, d, a, b) != {}) &&
    (b in g[a] ==> g[a][b] == Label(actors, movies, d, a, b))
  }

  /** The graph after the castings d: a vertex per actor name, and the edges
      the castings of d give. */
  ghost predicate Built(actors: map<string, string>, movies: map<string, string>, g: BaconGraph, d: set<Casting>)
  {
    g.Keys == actors.Values &&
    (forall t :: t in d ==> t.1 in actors && t.2 in actors) &&
    (forall a, b :: a in g ==> EdgeMatches(actors, movies, g, d, a, b))
  }

  /** t is a visit of the inner loop body that does something: two distinct
      cast members of one movie. */
  ghost predicate CoCast(movieActors: map<string, set<string>>, t: Casting)
  {
    t.0 in movieActors && t.1 in movieActors[t.0] && t.2 in movieActors[t.0] && t.1 != t.2
  }

  /** d holds the castings of the movies done. */
  ghost predicate CoveredMovies(movieActors: map<string, set<string>>, d: set<Casting>, done: set<string>)
  {
    forall t :: t in d <==> CoCast(movieActors, t) && t.0 in done
  }

  /** ... and those of movie m with actorx among xs. */
  ghost predicate CoveredCast(movieActors: map<string, set<string>>, d: set<Casting>, done: set<string>,
                              m: string, xs: set<string>)
  {
    forall t :: t in d <==> CoCast(movieActors, t) && (t.0 in done || (t.0 == m && t.1 in xs))
  }

  /** ... and those of movie m and actorx x with actory among ys. */
  ghost predicate CoveredPairs(movieActors: map<string, set<string>>, d: set<Casting>, done: set<string>,
                               m: string, xs: set<string>, x: string, ys: set<string>)
  {
    forall t :: t in d <==>
      CoCast(movieActors, t) && (t.0 in done || (t.0 == m && (t.1 in xs || (t.1 == x && t.2 in ys))))
  }

  lemma {:induction false} ValuesGrow(actors: map<string, string>, ids: set<string>, id: string)
    requires id in ids && id in actors
    ensures (actors - (ids - {id})).Values == (actors - ids).Values + {actors[id]}
  {
    var before, after := actors - ids, actors - (ids - {id});
    forall n | n in after.Values
      ensures n in before.Values + {actors[id]}
    {
      var k :| k in after && after[k] == n;
      if k != id {
        assert k in before;
      }
    }
    forall n | n in before.Values + {actors[id]}
      ensures n in after.Values
    {
      if n == actors[id] {
        assert id in after;
      } else {
        var k :| k in before && before[k] == n;
        assert k in after;
      }
    }
  }

  /** Adding casting t adds its movie to the label of the two names it joins. */
  lemma {:induction false} LabelAdd(actors: map<string, string>, movies: map<string, string>, d: set<Casting>, t: Casting,
                 a: string, b: string)
    ensures Label(actors, movies, d + {t}, a, b) ==
      Label(actors, movies, d, a, b) + (if Joins(actors, t, a, b) then {Title(movies, t.0)} else {})
  {
  }

  lemma {:induction false} LabelSymmetric(actors: map<string, string>, movies: map<string, string>, d: set<Casting>, a: string, b: string)
    ensures Label(actors, movies, d, a, b) == Label(actors, movies, d, b, a)
  {
    assert forall t :: Joins(actors, t, a, b) <==> Joins(actors, t, b, a);
  }

  /** After one pass of the inner loop body the edges between the two names
      it joins match the castings so far ... */
  lemma {:induction false} LinkJoined(actors: map<string, string>, movies: map<string, string>, g: BaconGraph, d: set<Casting>,
                   m: string, x: string, y: string, w: string, z: string)
    requires x in actors && y in actors && actors[x] in g && actors[y] in g
    requires actors[y] in g[actors[x]] ==> actors[x] in g[actors[y]] && g[actors[y]][actors[x]] == g[actors[x]][actors[y]]
    requires EdgeMatches(actors, movies, g, d, actors[x], actors[y])
    requires (w == actors[x] && z == actors[y]) || (w == actors[y] && z == actors[x])
    ensures EdgeMatches(actors, movies, Link(g, actors[x], actors[y], Title(movies, m)), d + {(m, x, y)}, w, z)
  {
    var t := (m, x, y);
    LabelAdd(actors, movies, d, t, w, z);
    assert Joins(actors, t, w, z);
    LabelSymmetric(actors, movies, d, w, z);
  }

  /** ... and every other edge is as it was. */
  lemma {:induction false} LinkElsewhere(actors: map<string, string>, movies: map<string, string>, g: BaconGraph, d: set<Casting>,
                      m: string, x: string, y: string, w: string, z: string)
    requires x in actors && y in actors && actors[x] in g && actors[y] in g
    requires actors[y] in g[actors[x]] ==> actors[x] in g[actors[y]] && g[actors[y]][actors[x]] == g[actors[x]][actors[y]]
    requires w in g && EdgeMatches(actors, movies, g, d, w, z)
    requires !(w == actors[x] && z == actors[y]) && !(w == actors[y] && z == actors[x])
    ensures EdgeMatches(actors, movies, Link(g, actors[x], actors[y], Title(movies, m)), d + {(m, x, y)}, w, z)
  {
    var t := (m, x, y);
    LabelAdd(actors, movies, d, t, w, z);
    assert !Joins(actors, t, w, z);
  }

  /** One pass of the inner loop body keeps Built. */
  lemma {:induction false} LinkBuilt(actors: map<string, string>, movies: map<string, string>, g: BaconGraph, d: set<Casting>,
                  m: string, x: string, y: string)
    requires Built(actors, movies, g, d) && x in actors && y in actors
    ensures actors[x] in g && actors[y] in g
    ensures actors[y] in g[actors[x]] ==> actors[x] in g[actors[y]] && g[actors[y]][actors[x]] == g[actors[x]][actors[y]]
    ensures Built(actors, movies, Link(g, actors[x], actors[y], Title(movies, m)), d + {(m, x, y)})
  {
    var a, b := actors[x], actors[y];
    assert a in actors.Values && b in actors.Values;
    assert EdgeMatches(actors, movies, g, d, a, b) && EdgeMatches(actors, movies, g, d, b, a);
    LabelSymmetric(actors, movies, d, a, b);
    var g' := Link(g, a, b, Title(movies, m));
    var d' := d + {(m, x, y)};
    forall w, z | w in g'
      ensures EdgeMatches(actors, movies, g', d', w, z)
    {
      if (w == a && z == b) || (w == b && z == a) {
        LinkJoined(actors, movies, g, d, m, x, y, w, z);
      } else {
        assert EdgeMatches(actors, movies, g, d, w, z);
        LinkElsewhere(actors, movies, g, d, m, x, y, w, z);
      }
    }
  }

  /** One pass of the inner loop body covers actory y. */
  lemma {:induction false} PairCovered(movieActors: map<string, set<string>>, d: set<Casting>, done: set<string>, m: string,
                    xs: set<string>, x: string, ys: set<string>, y: string)
    requires m in movieActors && x in movieActors[m] && y in movieActors[m]
    requires CoveredPairs(movieActors, d, done, m, xs, x, ys)
    ensures y == x ==> CoveredPairs(movieActors, d, done, m, xs, x, ys + {y})
    ensures y != x ==> CoveredPairs(movieActors, d + {(m, x, y)}, done, m, xs, x, ys + {y})
  {
  }

  lemma {:induction false} EndCast(movieActors: map<string, set<string>>, d: set<Casting>, done: set<string>, m: string,
                xs: set<string>, x: string)
    requires m in movieActors && CoveredPairs(movieActors, d, done, m, xs, x, movieActors[m])
    ensures CoveredCast(movieActors, d, done, m, xs + {x})
  {
  }

  lemma {:induction false} EndMovie(movieActors: map<string, set<string>>, d: set<Casting>, done: set<string>, m: string)
    requires m in movieActors && CoveredCast(movieActors, d, done, m, movieActors[m])
    ensures CoveredMovies(movieActors, d, done + {m})
  {
  }

  /** With every casting done, Built says the graph is the co-star graph. */
  lemma {:induction false} BuiltAll(actors: map<string, string>, movies: map<string, string>, movieActors: map<string, set<string>>,
                 g: BaconGraph, d: set<Casting>)
    requires Built(actors, movies, g, d) && CoveredMovies(movieActors, d, movieActors.Keys)
    ensures !UnknownCoStar(actors, movieActors)
    ensures forall a, b :: a in g ==> (b in g[a] <==> CoStar(actors, movieActors, a, b))
    ensures forall a, b :: a in g && b in g[a] ==> g[a][b] == Shared(actors, movies, movieActors, a, b)
  {
    assert forall t :: CoCast(movieActors, t) ==> t in d;
    forall a, b | a in g
      ensures b in g[a] <==> CoStar(actors, movieActors, a, b)
      ensures b in g[a] ==> g[a][b] == Shared(actors, movies, movieActors, a, b)
    {
      assert EdgeMatches(actors, movies, g, d, a, b);
      LabelShared(actors, movies, movieActors, d, a, b);
      SharedCoStar(actors, movies, movieActors, a, b);
    }
  }

  lemma {:induction false} SharedCoStar(actors: map<string, string>, movies: map<string, string>, movieActors: map<string, set<string>>,
                     a: string, b: string)
    ensures Shared(actors, movies, movieActors, a, b) != {} <==> CoStar(actors, movieActors, a, b)
  {
    if CoStar(actors, movieActors, a, b) {
      var m :| CastTogether(actors, movieActors, m, a, b);
      assert Title(movies, m) in Shared(actors, movies, movieActors, a, b);
    }
  }

  lemma {:induction false} LabelShared(actors: map<string, string>, movies: map<string, string>, movieActors: map<string, set<string>>,
                    d: set<Casting>, a: string, b: string)
    requires forall t :: t in d <==> CoCast(movieActors, t)
    requires forall t :: t in d ==> t.1 in actors && t.2 in actors
    ensures Label(actors, movies, d, a, b) == Shared(actors, movies, movieActors, a, b)
  {
    forall title | title in Label(actors, movies, d, a, b)
      ensures title in Shared(actors, movies, movieActors, a, b)
    {
      var t :| t in d && Joins(actors, t, a, b) && title == Title(movies, t.0);
      if actors[t.1] == a && actors[t.2] == b {
        assert CastTogether(actors, movieActors, t.0, a, b);
      } else {
        assert CastTogether(actors, movieActors, t.0, a, b) by {
          assert t.2 in movieActors[t.0] && t.1 in movieActors[t.0];
        }
      }
    }
    forall title | title in Shared(actors, movies, movieActors, a, b)
      ensures title in Label(actors, movies, d, a, b)
    {
      var m :| m in movieActors && CastTogether(actors, movieActors, m, a, b) && title == Title(movies, m);
      var x, y :| x in movieActors[m] && y in movieActors[m] && x != y &&
        x in actors && y in actors && actors[x] == a && actors[y] == b;
      assert CoCast(movieActors, (m, x, y));
    }
  }

  // ---------------------------------------------------------------------------
  // buildGraph
  // ---------------------------------------------------------------------------

  /** The first loop of buildGraph (BuildBaconGraph.java:23-25): a vertex
      without edges for every actor name. */
  method InsertVertices(actors: map<string, string>) returns (g: BaconGraph)
    ensures g.Keys == actors.Values
    ensures forall n :: n in g ==> g[n] == map[]
  {
    g := map[];
    var ids := actors.Keys;
    while ids != {}
      invariant ids <= actors.Keys
      invariant g.Keys == (actors - ids).Values
      invariant forall n :: n in g ==> g[n] == map[]
      decreases ids
    {
      var id :| id in ids;
      ValuesGrow(actors, ids, id);
      g := InsertVertex(g, actors[id]);
      ids := ids - {id};
    }
    assert actors - {} == actors;
  }

  /** The loop over actory for movie m and actorx x
      (BuildBaconGraph.java:35-47). */
  method LinkCoStars(actors: map<string, string>, movies: map<string, string>, movieActors: map<string, set<string>>,
                     g: BaconGraph, ghost d: set<Casting>, ghost done: set<string>, m: string, ghost xs: set<string>,
                     x: string)
    returns (r: Result<BaconGraph, GraphError>, ghost d': set<Casting>)
    requires m in movieActors && x in movieActors[m]
    requires Built(actors, movies, g, d) && CoveredPairs(movieActors, d, done, m, xs, x, {})
    ensures r.Failure? ==> UnknownCoStar(actors, movieActors)
    ensures r.Success? ==> Built(actors, movies, r.value, d') && CoveredCast(movieActors, d', done, m, xs + {x})
  {
    var cast := movieActors[m];
    var g' := g;
    d' := d;
    var yTodo := cast;
    ghost var ys: set<string> := {};
    while yTodo != {}
      invariant yTodo <= cast && ys == cast - yTodo
      invariant Built(actors, movies, g', d') && CoveredPairs(movieActors, d', done, m, xs, x, ys)
      decreases yTodo
    {
      var y :| y in yTodo;
      PairCovered(movieActors, d', done, m, xs, x, ys, y);
      if y != x {
        if x !in actors || y !in actors {
          assert CoCast(movieActors, (m, x, y));
          return Failure(NullPointer), d';
        }
        LinkBuilt(actors, movies, g', d', m, x, y);
        g' := Link(g', actors[x], actors[y], Title(movies, m));
        d' := d' + {(m, x, y)};
      }
      yTodo := yTodo - {y};
      ys := ys + {y};
    }
    EndCast(movieActors, d', done, m, xs, x);
    r := Success(g');
  }

  /** The loop over actorx for movie m (BuildBaconGraph.java:33-48). */
  method LinkCast(actors: map<string, string>, movies: map<string, string>, movieActors: map<string, set<string>>,
                  g: BaconGraph, ghost d: set<Casting>, ghost done: set<string>, m: string)
    returns (r: Result<BaconGraph, GraphError>, ghost d': set<Casting>)
    requires m in movieActors
    requires Built(actors, movies, g, d) && CoveredMovies(movieActors, d, done)
    ensures r.Failure? ==> UnknownCoStar(actors, movieActors)
    ensures r.Success? ==> Built(actors, movies, r.value, d') && CoveredMovies(movieActors, d', done + {m})
  {
    var cast := movieActors[m];
    var g' := g;
    d' := d;
    var xTodo := cast;
    ghost var xs: set<string> := {};
    while xTodo != {}
      invariant xTodo <= cast && xs == cast - xTodo
      invariant Built(actors, movies, g', d') && CoveredCast(movieActors, d', done, m, xs)
      decreases xTodo
    {
      var x :| x in xTodo;
      var step;
      step, d' := LinkCoStars(actors, movies, movieActors, g', d', done, m, xs, x);
      if step.Failure? {
        return step, d';
      }
      g' := step.value;
      xTodo := xTodo - {x};
      xs := xs + {x};
    }
    EndMovie(movieActors, d', done, m);
    r := Success(g');
  }

  /**
   * buildGraph after the files are read (BuildBaconGraph.java:20-50). It
   * fails exactly when some movie lists, next to another cast member, an ID
   * that is not an actor; otherwise the vertices are the actor names, two
   * names are joined exactly when a movie casts them together under two
   * distinct IDs, and the label of the edge is the set of those movies.
   */
  method BuildGraph(actors: map<string, string>, movies: map<string, string>, movieActors: map<string, set<string>>)
    returns (r: Result<BaconGraph, GraphError>)
    ensures r.Failure? <==> UnknownCoStar(actors, movieActors)
    ensures r.Success? ==> CoStarGraph(actors, movies, movieActors, r.value)
  {
    var g := InsertVertices(actors);
    ghost var d: set<Casting> := {};
    ghost var done: set<string> := {};
    var movieTodo := movieActors.Keys;
    while movieTodo != {}
      invariant movieTodo <= movieActors.Keys && done == movieActors.Keys - movieTodo
      invariant Built(actors, movies, g, d) && CoveredMovies(movieActors, d, done)
      decreases movieTodo
    {
      var m :| m in movieTodo;
      var step;
      step, d := LinkCast(actors, movies, movieActors, g, d, done, m);
      if step.Failure? {
        return step;
      }
      g := step.value;
      movieTodo := movieTodo - {m};
      done := done + {m};
    }
    BuiltAll(actors, movies, movieActors, g, d);
    r := Success(g);
  }

  // ---------------------------------------------------------------------------
  // What the co-star graph is
  // ---------------------------------------------------------------------------

  /** The co-star graph is undirected: every edge comes with its reverse,
      which carries the same label, and edges lead to vertices. */
  lemma {:induction false} CoStarGraphUndirected(actors: map<string, string>, movies: map<string, string>,
                              movieActors: map<string, set<string>>, g: BaconGraph)
    requires CoStarGraph(actors, movies, movieActors, g)
    ensures Closed(g)
    ensures forall a, b :: a in g && b in g[a] ==> b in g && a in g[b] && g[b][a] == g[a][b]
  {
    forall a, b | a in g && b in g[a]
      ensures b in g && a in g[b] && g[b][a] == g[a][b]
    {
      var m :| CastTogether(actors, movieActors, m, a, b);
      var x, y :| x in movieActors[m] && y in movieActors[m] && x != y &&
        x in actors && y in actors && actors[x] == a && actors[y] == b;
      assert b in actors.Values;
      assert CastTogether(actors, movieActors, m, b, a);
      SharedSymmetric(actors, movies, movieActors, a, b);
    }
  }

  lemma {:induction false} CastTogetherSymmetric(actors: map<string, string>, movieActors: map<string, set<string>>,
                              m: string, a: string, b: string)
    requires CastTogether(actors, movieActors, m, a, b)
    ensures CastTogether(actors, movieActors, m, b, a)
  {
    var x, y :| x in movieActors[m] && y in movieActors[m] && x != y &&
      x in actors && y in actors && actors[x] == a && actors[y] == b;
    assert y in movieActors[m] && x in movieActors[m];
  }

  lemma {:induction false} SharedSymmetric(actors: map<string, string>, movies: map<string, string>,
                        movieActors: map<string, set<string>>, a: string, b: string)
    ensures Shared(actors, movies, movieActors, a, b) == Shared(actors, movies, movieActors, b, a)
  {
    forall m | m in movieActors
      ensures CastTogether(actors, movieActors, m, a, b) <==> CastTogether(actors, movieActors, m, b, a)
    {
      if CastTogether(actors, movieActors, m, a, b) {
        CastTogetherSymmetric(actors, movieActors, m, a, b);
      }
      if CastTogether(actors, movieActors, m, b, a) {
        CastTogetherSymmetric(actors, movieActors, m, b, a);
      }
    }
  }

  /** An ID is never paired with itself: a name is joined to itself only when
      two distinct IDs of one cast carry that name, so with names unique to
      IDs there are no self-loops. */
  lemma {:induction false} NoSelfLoops(actors: map<string, string>, movies: map<string, string>,
                    movieActors: map<string, set<string>>, g: BaconGraph)
    requires CoStarGraph(actors, movies, movieActors, g)
    requires forall x, y :: x in actors && y in actors && x != y ==> actors[x] != actors[y]
    ensures forall a :: a in g ==> a !in g[a]
  {
    forall a, m | a in g
      ensures !CastTogether(actors, movieActors, m, a, a)
    {
    }
  }
}
