/** The layered proximity graph and the two searches over one of its layers. */
module Hnsw {

  import opened Bytes
  import opened Ordering
  import opened Vectors

  datatype Node = Node(vector: Vec, level: nat, neighbors: seq<seq<Str>>)

  datatype Graph = Graph(nodes: map<Str, Node>, entry: Str, highest: nat)

  /** The neighbours of `id` on a layer; none where it has no list. */
  function Adjacent(g: Graph, id: Str, level: nat): seq<Str> {
    if id in g.nodes && level < |g.nodes[id].neighbors| then g.nodes[id].neighbors[level] else []
  }

  /** A node of the graph as the query sees it. */
  function At(space: Space, g: Graph, query: Vec, id: Str): Neighbor {
    Neighbor(id, if id in g.nodes then 1.0 - space.cosine(query, g.nodes[id].vector) else 0.0)
  }

  /** Following a layer's neighbours never leaves `region`. */
  ghost predicate ClosedRegion(g: Graph, level: nat, region: set<Str>) {
    forall id, n :: id in region && n in Adjacent(g, id, level) ==> n in region
  }

  ghost predicate LayerClosed(g: Graph, level: nat) {
    ClosedRegion(g, level, g.nodes.Keys)
  }

  // ---------------------------------------------------------------------------
  // Greedy descent on one layer

  /** The best of `current` and the listed neighbours, scanning in list order. */
  function Pass(space: Space, g: Graph, query: Vec, current: Str, list: seq<Str>): (best: Str)
    ensures best == current || best in list
    ensures best == current || Closer(At(space, g, query, best), At(space, g, query, current))
    ensures forall n :: n in list ==> !Closer(At(space, g, query, n), At(space, g, query, best))
    decreases |list|
  {
    CloserTotal();
    if list == [] then current
    else
      var next := if Closer(At(space, g, query, list[0]), At(space, g, query, current)) then list[0] else current;
      assert list == [list[0]] + list[1..];
      Pass(space, g, query, next, list[1..])
  }

  ghost function Nearer(space: Space, g: Graph, query: Vec, id: Str): set<Str> {
    set x | x in g.nodes && Closer(At(space, g, query, x), At(space, g, query, id))
  }

  lemma NearerShrinks(space: Space, g: Graph, query: Vec, next: Str, current: Str)
    requires next in g.nodes && Closer(At(space, g, query, next), At(space, g, query, current))
    ensures |Nearer(space, g, query, next)| < |Nearer(space, g, query, current)|
  {
    CloserTotal();
    hide Closer;
    var a, b := Nearer(space, g, query, next), Nearer(space, g, query, current);
    assert next in b && next !in a;
    assert a <= b - {next};
    SubsetSize(a, b - {next});
  }

  /** Moves to the best neighbour until none is better: a local minimum of the layer, no worse than the start. */
  function Greedy(space: Space, g: Graph, query: Vec, current: Str, level: nat): (r: Str)
    requires LayerClosed(g, level) && current in g.nodes
    ensures r in g.nodes
    ensures r == current || Closer(At(space, g, query, r), At(space, g, query, current))
    ensures forall n :: n in Adjacent(g, r, level) ==> !Closer(At(space, g, query, n), At(space, g, query, r))
    decreases |Nearer(space, g, query, current)|
  {
    var next := Pass(space, g, query, current, Adjacent(g, current, level));
    if next == current then current
    else
      NearerShrinks(space, g, query, next, current);
      CloserTotal();
      Greedy(space, g, query, next, level)
  }

  lemma {:induction false} GreedyStaysInside(space: Space, g: Graph, query: Vec, current: Str, level: nat,
      region: set<Str>)
    requires LayerClosed(g, level) && current in g.nodes
    requires ClosedRegion(g, level, region) && current in region
    ensures Greedy(space, g, query, current, level) in region
    decreases |Nearer(space, g, query, current)|
  {
    var next := Pass(space, g, query, current, Adjacent(g, current, level));
    if next != current {
      NearerShrinks(space, g, query, next, current);
      GreedyStaysInside(space, g, query, next, level, region);
    }
  }

  // ---------------------------------------------------------------------------
  // Best-first search of one layer

  /** `candidates` is the heap that yields its nearest first, `results` the heap that sheds its furthest; both are
      kept as the sorted lists they enumerate. */
  datatype Frontier = Frontier(visited: set<Str>, candidates: seq<Neighbor>, results: seq<Neighbor>)

  predicate Admits(f: Frontier, breadth: nat, n: Neighbor) {
    |f.results| < breadth || (f.results != [] && Closer(n, f.results[|f.results| - 1]))
  }

  function Visit(space: Space, g: Graph, query: Vec, breadth: nat, f: Frontier, id: Str): Frontier {
    if id in f.visited then f
    else
      var n := At(space, g, query, id);
      if Admits(f, breadth, n)
      then Frontier(f.visited + {id}, Insert(Closer, n, f.candidates), Offer(f.results, breadth, n))
      else f.(visited := f.visited + {id})
  }

  ghost function Work(g: Graph, f: Frontier): nat {
    |g.nodes.Keys - f.visited| + |f.candidates|
  }

  lemma VisitWork(space: Space, g: Graph, query: Vec, breadth: nat, f: Frontier, id: Str)
    requires id in g.nodes
    ensures Work(g, Visit(space, g, query, breadth, f, id)) <= Work(g, f)
  {
    if id !in f.visited {
      var left := g.nodes.Keys - f.visited;
      assert g.nodes.Keys - (f.visited + {id}) == left - {id};
    }
  }

  function Expand(space: Space, g: Graph, query: Vec, breadth: nat, f: Frontier, list: seq<Str>): Frontier
    decreases |list|
  {
    if list == [] then f
    else Expand(space, g, query, breadth, Visit(space, g, query, breadth, f, list[0]), list[1..])
  }

  lemma {:induction false} ExpandVisits(space: Space, g: Graph, query: Vec, breadth: nat, f: Frontier, list: seq<Str>)
    ensures Expand(space, g, query, breadth, f, list).visited == f.visited + Elements(list)
    decreases |list|
  {
    if list != [] {
      ExpandVisits(space, g, query, breadth, Visit(space, g, query, breadth, f, list[0]), list[1..]);
      assert Elements(list) == {list[0]} + Elements(list[1..]);
    }
  }

  lemma {:induction false} ExpandWork(space: Space, g: Graph, query: Vec, breadth: nat, f: Frontier, list: seq<Str>)
    requires forall id :: id in list ==> id in g.nodes
    ensures Work(g, Expand(space, g, query, breadth, f, list)) <= Work(g, f)
    decreases |list|
  {
    if list != [] {
      VisitWork(space, g, query, breadth, f, list[0]);
      ExpandWork(space, g, query, breadth, Visit(space, g, query, breadth, f, list[0]), list[1..]);
    }
  }

  /** True when the nearest open candidate cannot improve a full result list. */
  predicate Finished(f: Frontier, breadth: nat) {
    || f.candidates == []
    || (|f.results| >= breadth && f.results != [] && !Closer(f.candidates[0], f.results[|f.results| - 1]))
  }

  function Explore(space: Space, g: Graph, query: Vec, breadth: nat, level: nat, f: Frontier): Frontier
    requires LayerClosed(g, level)
    decreases Work(g, f)
  {
    if Finished(f, breadth) then f
    else
      var list := Adjacent(g, f.candidates[0].id, level);
      ExpandWork(space, g, query, breadth, f.(candidates := f.candidates[1..]), list);
      Explore(space, g, query, breadth, level,
        Expand(space, g, query, breadth, f.(candidates := f.candidates[1..]), list))
  }

  function Seed(space: Space, g: Graph, query: Vec, entries: seq<Str>): Frontier {
    if entries == [] then Frontier({}, [], [])
    else
      var f := Seed(space, g, query, entries[..|entries| - 1]);
      var id := entries[|entries| - 1];
      if id in f.visited then f
      else
        var n := At(space, g, query, id);
        Frontier(f.visited + {id}, Insert(Closer, n, f.candidates), Insert(Closer, n, f.results))
  }

  function SearchLayer(space: Space, g: Graph, query: Vec, entries: seq<Str>, breadth: nat, level: nat): seq<Neighbor>
    requires LayerClosed(g, level)
  {
    Explore(space, g, query, breadth, level, Seed(space, g, query, entries)).results
  }

  // ---------------------------------------------------------------------------
  // What the search keeps

  ghost function Pool(space: Space, g: Graph, query: Vec, visited: set<Str>): set<Neighbor> {
    set id | id in visited :: At(space, g, query, id)
  }

  lemma {:induction false} PoolCard(space: Space, g: Graph, query: Vec, visited: set<Str>)
    ensures |Pool(space, g, query, visited)| == |visited|
  {
    if visited != {} {
      var id :| id in visited;
      PoolCard(space, g, query, visited - {id});
      assert Pool(space, g, query, visited) == Pool(space, g, query, visited - {id}) + {At(space, g, query, id)};
    }
  }

  /** The results are exactly the `breadth` closest of everything visited, and the candidates are visited nodes in
      order of distance. */
  ghost predicate Sound(space: Space, g: Graph, query: Vec, breadth: nat, f: Frontier) {
    && IsTop(Closer, f.results, breadth, Pool(space, g, query, f.visited))
    && StrictlySorted(Closer, f.candidates)
    && (forall c :: c in f.candidates ==> c.id in f.visited && c == At(space, g, query, c.id))
  }

  lemma PoolGrows(space: Space, g: Graph, query: Vec, visited: set<Str>, id: Str)
    ensures Pool(space, g, query, visited + {id}) == Pool(space, g, query, visited) + {At(space, g, query, id)}
  {
  }

  lemma VisitSound(space: Space, g: Graph, query: Vec, breadth: nat, f: Frontier, id: Str)
    requires breadth > 0 && Sound(space, g, query, breadth, f)
    ensures Sound(space, g, query, breadth, Visit(space, g, query, breadth, f, id))
  {
    if id !in f.visited {
      var n := At(space, g, query, id);
      var pool := Pool(space, g, query, f.visited);
      PoolGrows(space, g, query, f.visited, id);
      assert n !in pool && n !in f.candidates;
      OfferKeepsTop(f.results, breadth, pool, n);
      InsertStrict(n, f.candidates);
    }
  }

  lemma {:induction false} ExpandSound(space: Space, g: Graph, query: Vec, breadth: nat, f: Frontier, list: seq<Str>)
    requires breadth > 0 && Sound(space, g, query, breadth, f)
    ensures Sound(space, g, query, breadth, Expand(space, g, query, breadth, f, list))
    decreases |list|
  {
    if list != [] {
      VisitSound(space, g, query, breadth, f, list[0]);
      ExpandSound(space, g, query, breadth, Visit(space, g, query, breadth, f, list[0]), list[1..]);
    }
  }

  /** Best-first search keeps the invariant to its end, only ever adds to what it visited, and stays inside any
      region of the layer that holds its start. */
  lemma {:induction false} ExploreSound(space: Space, g: Graph, query: Vec, breadth: nat, level: nat, f: Frontier,
      region: set<Str>)
    requires LayerClosed(g, level)
    requires breadth > 0 && Sound(space, g, query, breadth, f)
    requires ClosedRegion(g, level, region) && f.visited <= region
    ensures var r := Explore(space, g, query, breadth, level, f);
      && Sound(space, g, query, breadth, r) && Finished(r, breadth)
      && f.visited <= r.visited <= region
    decreases Work(g, f)
  {
    if !Finished(f, breadth) {
      var rest := f.(candidates := f.candidates[1..]);
      var c := f.candidates[0];
      var list := Adjacent(g, c.id, level);
      assert c in f.candidates;
      assert Sound(space, g, query, breadth, rest);
      ExpandSound(space, g, query, breadth, rest, list);
      ExpandVisits(space, g, query, breadth, rest, list);
      ExpandWork(space, g, query, breadth, rest, list);
      ExploreSound(space, g, query, breadth, level, Expand(space, g, query, breadth, rest, list), region);
    }
  }

  lemma EnterSound(space: Space, g: Graph, query: Vec, breadth: nat, f: Frontier, id: Str)
    requires Sound(space, g, query, breadth, f) && |f.visited| < breadth && id !in f.visited
    requires Elements(f.candidates) == Pool(space, g, query, f.visited)
    ensures var n := At(space, g, query, id);
      var r := Frontier(f.visited + {id}, Insert(Closer, n, f.candidates), Insert(Closer, n, f.results));
      Sound(space, g, query, breadth, r) && Elements(r.candidates) == Pool(space, g, query, r.visited)
  {
    hide Closer, Insert, IsTop;
    var n := At(space, g, query, id);
    var pool := Pool(space, g, query, f.visited);
    PoolGrows(space, g, query, f.visited, id);
    PoolCard(space, g, query, f.visited);
    assert n !in pool && n !in f.candidates;
    OfferKeepsTop(f.results, breadth, pool, n);
    InsertStrict(n, f.candidates);
    OfferHasRoom(f.results, breadth, pool, n);
    hide Pool;
  }

  lemma OfferHasRoom(results: seq<Neighbor>, breadth: nat, pool: set<Neighbor>, n: Neighbor)
    requires IsTop(Closer, results, breadth, pool) && |pool| < breadth
    ensures Offer(results, breadth, n) == Insert(Closer, n, results)
  {
    hide Closer, Insert;
  }

  lemma SeedNothing(space: Space, g: Graph, query: Vec, breadth: nat)
    ensures var f := Seed(space, g, query, []);
      Sound(space, g, query, breadth, f) && f.visited == {} &&
        Elements(f.candidates) == Pool(space, g, query, f.visited)
  {
    assert Pool(space, g, query, {}) == {};
  }

  lemma {:induction false} SeedSound(space: Space, g: Graph, query: Vec, entries: seq<Str>, breadth: nat)
    requires |entries| <= breadth
    ensures var f := Seed(space, g, query, entries);
      && Sound(space, g, query, breadth, f) && f.visited == Elements(entries) && |f.visited| <= |entries|
      && Elements(f.candidates) == Pool(space, g, query, f.visited)
  {
    hide Sound, Pool, Insert;
    if entries == [] {
      SeedNothing(space, g, query, breadth);
    } else {
      var init, id := entries[..|entries| - 1], entries[|entries| - 1];
      assert entries == init + [id];
      assert Elements(entries) == Elements(init) + {id};
      SeedSound(space, g, query, init, breadth);
      var f := Seed(space, g, query, init);
      if id !in f.visited {
        EnterSound(space, g, query, breadth, f, id);
      } else {
        assert Elements(entries) == Elements(init);
      }
    }
  }

  lemma SeedOne(space: Space, g: Graph, query: Vec, id: Str)
    ensures var n := At(space, g, query, id); Seed(space, g, query, [id]) == Frontier({id}, [n], [n])
  {
    var n := At(space, g, query, id);
    assert [id][..0] == [];
    assert Insert(Closer, n, []) == [n] + [];
  }

  /** What a layer search returns: the `breadth` closest, in order and without repeats, of the nodes it visited, which
      include its entries and lie inside every region of the layer that holds them. */
  lemma SearchLayerSound(space: Space, g: Graph, query: Vec, entries: seq<Str>, breadth: nat, level: nat,
      region: set<Str>)
    requires LayerClosed(g, level) && 0 < |entries| <= breadth
    requires ClosedRegion(g, level, region) && Elements(entries) <= region
    ensures var visited := Explore(space, g, query, breadth, level, Seed(space, g, query, entries)).visited;
      && Elements(entries) <= visited <= region
      && IsTop(Closer, SearchLayer(space, g, query, entries, breadth, level), breadth, Pool(space, g, query, visited))
    ensures SearchLayer(space, g, query, entries, breadth, level) != []
    ensures forall n :: n in SearchLayer(space, g, query, entries, breadth, level) ==>
      n.id in region && n == At(space, g, query, n.id)
  {
    SeedSound(space, g, query, entries, breadth);
    var f := Seed(space, g, query, entries);
    ExploreSound(space, g, query, breadth, level, f, region);
    var r := Explore(space, g, query, breadth, level, f);
    PoolCard(space, g, query, r.visited);
    assert entries[0] in Elements(entries);
    assert forall n :: n in r.results ==> n in Elements(r.results);
  }

  // ---------------------------------------------------------------------------
  // A search as broad as the graph finds exactly what is reachable

  ghost predicate IsPath(g: Graph, level: nat, path: seq<Str>) {
    path != [] && forall i :: 0 <= i < |path| - 1 ==> path[i + 1] in Adjacent(g, path[i], level)
  }

  ghost predicate Reachable(g: Graph, level: nat, from: seq<Str>, id: Str) {
    exists path :: IsPath(g, level, path) && path[0] in from && path[|path| - 1] == id
  }

  lemma ReachableIsClosed(g: Graph, level: nat, from: seq<Str>, id: Str, next: Str)
    requires Reachable(g, level, from, id) && next in Adjacent(g, id, level)
    ensures Reachable(g, level, from, next)
  {
    var path :| IsPath(g, level, path) && path[0] in from && path[|path| - 1] == id;
    assert IsPath(g, level, path + [next]);
  }

  lemma {:induction false} PathStaysInside(g: Graph, level: nat, path: seq<Str>, region: set<Str>)
    requires IsPath(g, level, path) && path[0] in region && ClosedRegion(g, level, region)
    ensures path[|path| - 1] in region
    decreases |path|
  {
    if |path| > 1 {
      assert path[1] in Adjacent(g, path[0], level);
      PathStaysInside(g, level, path[1..], region);
    }
  }

  /** Every visited node is still a candidate or has had all its neighbours visited. */
  ghost predicate Open(space: Space, g: Graph, query: Vec, level: nat, f: Frontier) {
    forall id, n :: id in f.visited && n in Adjacent(g, id, level) ==>
      n in f.visited || At(space, g, query, id) in f.candidates
  }

  lemma WideVisitAdmits(space: Space, g: Graph, query: Vec, breadth: nat, f: Frontier, id: Str)
    requires Sound(space, g, query, breadth, f) && f.visited <= g.nodes.Keys && |g.nodes| <= breadth
    requires id in g.nodes && id !in f.visited
    ensures Admits(f, breadth, At(space, g, query, id))
  {
    PoolCard(space, g, query, f.visited);
    assert g.nodes.Keys == f.visited + (g.nodes.Keys - f.visited);
    assert |g.nodes.Keys| == |f.visited| + |g.nodes.Keys - f.visited|;
    assert id in g.nodes.Keys - f.visited;
  }

  /** Expanding a list keeps earlier candidates and turns each newly visited node into one. */
  lemma {:induction false} WideExpand(space: Space, g: Graph, query: Vec, breadth: nat, f: Frontier, list: seq<Str>)
    requires Sound(space, g, query, breadth, f) && f.visited <= g.nodes.Keys && |g.nodes| <= breadth && breadth > 0
    requires forall id :: id in list ==> id in g.nodes
    ensures var r := Expand(space, g, query, breadth, f, list);
      && (forall c :: c in f.candidates ==> c in r.candidates)
      && (forall id :: id in r.visited && id !in f.visited ==> At(space, g, query, id) in r.candidates)
    decreases |list|
  {
    if list != [] {
      var v := Visit(space, g, query, breadth, f, list[0]);
      VisitSound(space, g, query, breadth, f, list[0]);
      if list[0] !in f.visited {
        WideVisitAdmits(space, g, query, breadth, f, list[0]);
        assert At(space, g, query, list[0]) !in f.candidates;
        InsertStrict(At(space, g, query, list[0]), f.candidates);
      }
      WideExpand(space, g, query, breadth, v, list[1..]);
    }
  }

  lemma {:induction false} WideExploreCloses(space: Space, g: Graph, query: Vec, breadth: nat, level: nat, f: Frontier)
    requires LayerClosed(g, level) && |g.nodes| <= breadth && breadth > 0
    requires Sound(space, g, query, breadth, f) && f.visited <= g.nodes.Keys
    requires Open(space, g, query, level, f)
    ensures ClosedRegion(g, level, Explore(space, g, query, breadth, level, f).visited)
    decreases Work(g, f)
  {
    PoolCard(space, g, query, f.visited);
    if Finished(f, breadth) {
      if f.candidates != [] {
        SubsetFull(f.visited, g.nodes.Keys);
      }
    } else {
      var c := f.candidates[0];
      var rest := f.(candidates := f.candidates[1..]);
      var list := Adjacent(g, c.id, level);
      assert c in f.candidates;
      ExpandSound(space, g, query, breadth, rest, list);
      ExpandVisits(space, g, query, breadth, rest, list);
      ExpandWork(space, g, query, breadth, rest, list);
      WideExpand(space, g, query, breadth, rest, list);
      var r := Expand(space, g, query, breadth, rest, list);
      assert forall x :: x in f.candidates ==> x == c || x in rest.candidates;
      WideExploreCloses(space, g, query, breadth, level, r);
    }
  }

  lemma OpenAtStart(space: Space, g: Graph, query: Vec, level: nat, f: Frontier)
    requires Elements(f.candidates) == Pool(space, g, query, f.visited)
    ensures Open(space, g, query, level, f)
  {
    forall id | id in f.visited ensures At(space, g, query, id) in f.candidates {
      assert At(space, g, query, id) in Elements(f.candidates);
    }
  }

  /** With a breadth that covers the graph, a layer search returns a node exactly when some path on that layer leads
      to it from an entry. */
  lemma WideSearchIsReachability(space: Space, g: Graph, query: Vec, entries: seq<Str>, breadth: nat, level: nat,
      id: Str)
    requires LayerClosed(g, level) && 0 < |entries| <= breadth && |g.nodes| <= breadth
    requires Elements(entries) <= g.nodes.Keys
    ensures id in Ids(SearchLayer(space, g, query, entries, breadth, level)) <==> Reachable(g, level, entries, id)
    ensures StrictlySorted(Closer, SearchLayer(space, g, query, entries, breadth, level))
  {
    var f := Seed(space, g, query, entries);
    var r := Explore(space, g, query, breadth, level, f);
    ghost var region := set x | x in g.nodes && Reachable(g, level, entries, x);
    forall x, n | x in region && n in Adjacent(g, x, level) ensures n in region {
      ReachableIsClosed(g, level, entries, x, n);
    }
    forall x | x in Elements(entries) ensures x in region {
      assert IsPath(g, level, [x]);
    }
    hide IsTop, Closer, Explore, Seed, Pool;
    SearchLayerSound(space, g, query, entries, breadth, level, region);
    TopIsSorted(Closer, SearchLayer(space, g, query, entries, breadth, level), breadth,
      Pool(space, g, query, r.visited));
    SeedSound(space, g, query, entries, breadth);
    OpenAtStart(space, g, query, level, f);
    hide Sound;
    WideExploreCloses(space, g, query, breadth, level, f);
    if Reachable(g, level, entries, id) {
      var path :| IsPath(g, level, path) && path[0] in entries && path[|path| - 1] == id;
      PathStaysInside(g, level, path, r.visited);
    }
    WideResults(space, g, query, breadth, r.visited, r.results, id);
  }

  /** With room for the whole pool, the results name exactly the visited nodes. */
  lemma WideResults(space: Space, g: Graph, query: Vec, breadth: nat, visited: set<Str>, results: seq<Neighbor>,
      id: Str)
    requires IsTop(Closer, results, breadth, Pool(space, g, query, visited))
    requires visited <= g.nodes.Keys && |g.nodes| <= breadth
    ensures id in Ids(results) <==> id in visited
  {
    PoolCard(space, g, query, visited);
    SubsetSize(visited, g.nodes.Keys);
    WholePool(results, Pool(space, g, query, visited));
    if id in visited {
      assert At(space, g, query, id) in Elements(results);
      var i :| 0 <= i < |results| && results[i] == At(space, g, query, id);
      assert Ids(results)[i] == id;
    }
    if id in Ids(results) {
      var i :| 0 <= i < |results| && Ids(results)[i] == id;
      assert results[i] in Elements(results);
    }
  }
}
