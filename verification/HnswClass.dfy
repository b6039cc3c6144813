/** The graph as an object changed in place, refining the insertion and search functions. */
module HnswObjects {

  import opened Bytes
  import opened Ordering
  import opened Wrappers
  import opened Vectors
  import opened Hnsw
  import opened HnswBuild
  import opened HnswInsert
  import opened HnswExact

  datatype Error = IdRequired | InvalidVector | DuplicateId | NegativeLimit | InvalidOptions

  datatype Result = Result(id: Str, score: real)

  datatype Outcome<+T> = Ok(value: T) | Err(error: Error)

  function Scored(n: Neighbor): Result { Result(n.id, 1.0 - n.distance) }

  function ScoredAll(ns: seq<Neighbor>): (r: seq<Result>)
    ensures |r| == |ns| && forall i :: 0 <= i < |r| ==> r[i] == Scored(ns[i])
  {
    seq(|ns|, i requires 0 <= i < |ns| => Scored(ns[i]))
  }

  class Index {
    const space: Space
    const options: Options
    var nodes: map<Str, Node>
    var entryId: Str
    var highestLevel: nat

    ghost function G(): Graph
      reads this
    {
      Graph(nodes, entryId, highestLevel)
    }

    ghost predicate Valid()
      reads this
    {
      ValidOptions(options) && WellFormed(options, G())
    }

    constructor (space: Space, options: Options)
      requires ValidOptions(options)
      ensures Valid() && G() == EMPTY_GRAPH && this.space == space && this.options == options
    {
      this.space, this.options := space, options;
      nodes, entryId, highestLevel := map[], [], 0;
      new;
      EmptyWellFormed(options);
    }

    /** One pass over the neighbours of a node: the best of it and them. */
    method BestNeighbor(query: Vec, start: Str, level: nat) returns (current: Str)
      requires Layered(G()) && OnLayer(G(), start, level)
      ensures current == Pass(space, G(), query, start, Adjacent(G(), start, level)) && OnLayer(G(), current, level)
    {
      ghost var g := G();
      current := start;
      var distance := 1.0 - space.cosine(query, nodes[current].vector);
      var list := nodes[start].neighbors[level];
      for i := 0 to |list|
        invariant OnLayer(g, current, level) && distance == At(space, g, query, current).distance
        invariant Pass(space, g, query, current, list[i..]) == Pass(space, g, query, start, list)
      {
        var id := list[i];
        assert id in Adjacent(g, start, level);
        assert list[i..][0] == id && list[i..][1..] == list[i + 1..];
        var d := 1.0 - space.cosine(query, nodes[id].vector);
        if d < distance || (d == distance && Less(id, current)) {
          current, distance := id, d;
        }
      }
      assert list[|list|..] == [];
    }

    method GreedySearch(query: Vec, entry: Str, level: nat) returns (current: Str)
      requires Layered(G()) && OnLayer(G(), entry, level)
      ensures LayerClosed(G(), level) && current == Greedy(space, G(), query, entry, level)
      ensures OnLayer(G(), current, level)
    {
      ghost var g := G();
      LayeredIsClosed(g, level);
      hide Layered, Closer, Pass;
      current := entry;
      var improved := true;
      while improved
        invariant OnLayer(g, current, level)
        invariant Greedy(space, g, query, current, level) == Greedy(space, g, query, entry, level)
        invariant !improved ==> current == Greedy(space, g, query, current, level)
        decreases |Nearer(space, g, query, current)|, improved
      {
        var next := BestNeighbor(query, current, level);
        improved := next != current;
        if improved {
          NearerShrinks(space, g, query, next, current);
        }
        current := next;
      }
    }

    method SeedFrom(query: Vec, entries: seq<Str>) returns (f: Frontier)
      requires forall id :: id in entries ==> id in nodes
      ensures f == Seed(space, G(), query, entries)
    {
      var visited: set<Str> := {};
      var candidates: seq<Neighbor> := [];
      var results: seq<Neighbor> := [];
      for i := 0 to |entries|
        invariant Frontier(visited, candidates, results) == Seed(space, G(), query, entries[..i])
      {
        hide Insert;
        assert entries[..i + 1][..i] == entries[..i];
        var id := entries[i];
        assert id in entries;
        if id !in visited {
          visited := visited + {id};
          var candidate := Neighbor(id, 1.0 - space.cosine(query, nodes[id].vector));
          candidates := Insert(Closer, candidate, candidates);
          results := Insert(Closer, candidate, results);
        }
      }
      assert entries[..|entries|] == entries;
      return Frontier(visited, candidates, results);
    }

    /** Marks one node visited and offers it to both heaps. */
    method VisitOne(query: Vec, breadth: nat, f: Frontier, id: Str) returns (r: Frontier)
      requires f.results != [] && breadth > 0 && id in nodes && id !in f.visited
      ensures r == Visit(space, G(), query, breadth, f, id) && r.results != []
    {
      var current := Neighbor(id, 1.0 - space.cosine(query, nodes[id].vector));
      if |f.results| < breadth || Closer(current, f.results[|f.results| - 1]) {
        var candidates := Insert(Closer, current, f.candidates);
        var results := Insert(Closer, current, f.results);
        if |results| > breadth { results := results[..|results| - 1]; }
        return Frontier(f.visited + {id}, candidates, results);
      }
      return f.(visited := f.visited + {id});
    }

    method ExpandFrom(query: Vec, breadth: nat, start: Frontier, list: seq<Str>) returns (f: Frontier)
      requires start.results != [] && breadth > 0 && forall id :: id in list ==> id in nodes
      ensures f == Expand(space, G(), query, breadth, start, list) && f.results != []
    {
      hide Visit;
      f := start;
      for i := 0 to |list|
        invariant Expand(space, G(), query, breadth, f, list[i..]) == Expand(space, G(), query, breadth, start, list)
        invariant f.results != []
      {
        assert list[i] in list;
        assert list[i..][1..] == list[i + 1..];
        VisitedAlready(query, breadth, f, list[i]);
        if list[i] !in f.visited {
          f := VisitOne(query, breadth, f, list[i]);
        }
      }
      assert list[|list|..] == [];
    }

    lemma VisitedAlready(query: Vec, breadth: nat, f: Frontier, id: Str)
      ensures id in f.visited ==> Visit(space, G(), query, breadth, f, id) == f
    {
    }

    /** Where the search stands after some expansions. */
    ghost predicate Underway(query: Vec, entries: seq<Str>, breadth: nat, level: nat, f: Frontier)
      requires LayerClosed(G(), level)
      reads this
    {
      && Sound(space, G(), query, breadth, f) && f.results != []
      && (forall id :: id in f.visited ==> OnLayer(G(), id, level))
      && Explore(space, G(), query, breadth, level, f) ==
           Explore(space, G(), query, breadth, level, Seed(space, G(), query, entries))
    }

    lemma UnderwayAtStart(query: Vec, entries: seq<Str>, breadth: nat, level: nat)
      requires LayerClosed(G(), level) && 0 < |entries| <= breadth
      requires forall id :: id in entries ==> OnLayer(G(), id, level)
      ensures Underway(query, entries, breadth, level, Seed(space, G(), query, entries))
    {
      SeedSound(space, G(), query, entries, breadth);
      PoolCard(space, G(), query, Elements(entries));
      assert entries[0] in Elements(entries);
    }

    lemma UnderwayNext(query: Vec, entries: seq<Str>, breadth: nat, level: nat, f: Frontier)
      requires Layered(G()) && LayerClosed(G(), level) && breadth > 0
      requires Underway(query, entries, breadth, level, f) && !Finished(f, breadth)
      ensures OnLayer(G(), f.candidates[0].id, level)
      ensures var r := Expand(space, G(), query, breadth, f.(candidates := f.candidates[1..]),
        Adjacent(G(), f.candidates[0].id, level));
        Underway(query, entries, breadth, level, r) && Work(G(), r) < Work(G(), f)
    {
      var g := G();
      var popped := f.(candidates := f.candidates[1..]);
      assert f.candidates[0] in f.candidates;
      var list := Adjacent(g, f.candidates[0].id, level);
      ExpandSound(space, g, query, breadth, popped, list);
      ExpandVisits(space, g, query, breadth, popped, list);
      ExpandWork(space, g, query, breadth, popped, list);
      var r := Expand(space, g, query, breadth, popped, list);
      PoolCard(space, g, query, f.visited);
      PoolCard(space, g, query, r.visited);
      hide Expand, Explore, Closer;
      SubsetSize(f.visited, r.visited);
    }

    method SearchOneLayer(query: Vec, entries: seq<Str>, breadth: nat, level: nat) returns (ordered: seq<Neighbor>)
      requires Layered(G()) && 0 < |entries| <= breadth
      requires forall id :: id in entries ==> OnLayer(G(), id, level)
      ensures LayerClosed(G(), level) && ordered == SearchLayer(space, G(), query, entries, breadth, level)
    {
      LayeredIsClosed(G(), level);
      var f := SeedFrom(query, entries);
      UnderwayAtStart(query, entries, breadth, level);
      hide Sound, Seed, Expand, Closer;
      while f.candidates != []
        invariant Underway(query, entries, breadth, level, f)
        decreases Work(G(), f)
      {
        var candidate := f.candidates[0];
        if |f.results| >= breadth && !Closer(candidate, f.results[|f.results| - 1]) { break; }
        UnderwayNext(query, entries, breadth, level, f);
        var list := nodes[candidate.id].neighbors[level];
        f := ExpandFrom(query, breadth, f.(candidates := f.candidates[1..]), list);
      }
      return f.results;
    }

    /** Sorts a neighbour list by distance from its node and cuts it to the limit. */
    method Prune(id: Str, level: nat)
      requires HasList(G(), id, level)
      requires forall n :: n in nodes[id].neighbors[level] ==> n in nodes
      modifies this
      ensures G() == SetList(old(G()), id, level,
                             Pruned(space, old(G()), old(nodes[id].vector), old(nodes[id].neighbors[level]),
                               options.maxConnections))
    {
      var node := nodes[id];
      var list := node.neighbors[level];
      var all := nodes;
      assert forall i :: 0 <= i < |list| ==> list[i] in list;
      var ranking := seq(|list|, i requires 0 <= i < |list| && list[i] in all =>
        Neighbor(list[i], 1.0 - space.cosine(node.vector, all[list[i]].vector)));
      assert ranking == Ranking(space, G(), node.vector, list);
      var ranked := Ids(Sort(Closer, ranking));
      if |ranked| > options.maxConnections { ranked := ranked[..options.maxConnections]; }
      nodes := nodes[id := node.(neighbors := node.neighbors[level := ranked])];
    }

    /** Links the new node and one found neighbour, in both directions. */
    method Link(id: Str, level: nat, other: Str)
      requires Linkable(G(), id, level, [other])
      modifies this
      ensures G() == Connect(space, options, old(G()), id, level, other)
    {
      hide Pruned, Ranking;
      ghost var g := G();
      assert other in [other];
      assert OnLayer(g, id, level) && OnLayer(g, other, level);
      var node := nodes[id];
      nodes := nodes[id := node.(neighbors := node.neighbors[level := node.neighbors[level] + [other]])];
      ghost var g1 := G();
      assert g1 == SetList(g, id, level, Adjacent(g, id, level) + [other]);
      var neighbor := nodes[other];
      ghost var list := Adjacent(g1, other, level) + [id];
      assert forall n :: n in list ==> n in g1.nodes by {
        forall n | n in Adjacent(g, other, level) ensures n in g1.nodes { assert OnLayer(g, n, level); }
      }
      nodes := nodes[other := neighbor.(neighbors := neighbor.neighbors[level := neighbor.neighbors[level] + [id]])];
      ghost var g2 := G();
      RankingIgnoresLists(g1, g2, g1.nodes[other].vector, list);
      Prune(other, level);
      ghost var kept := Pruned(space, g1, g1.nodes[other].vector, list, options.maxConnections);
      assert neighbor.neighbors[level := list][level := kept] == neighbor.neighbors[level := kept];
      assert G().nodes == SetList(g1, other, level,
        Pruned(space, g1, g1.nodes[other].vector, list, options.maxConnections)).nodes;
    }

    lemma RankingIgnoresLists(g: Graph, h: Graph, v: Vec, list: seq<Str>)
      requires g.nodes.Keys == h.nodes.Keys && forall id :: id in g.nodes ==> g.nodes[id].vector == h.nodes[id].vector
      ensures Pruned(space, g, v, list, options.maxConnections) == Pruned(space, h, v, list, options.maxConnections)
    {
      hide Sort, Closer;
      assert Ranking(space, g, v, list) == Ranking(space, h, v, list);
    }

    method LinkAll(id: Str, level: nat, others: seq<Str>)
      requires Linkable(G(), id, level, others)
      modifies this
      ensures G() == ConnectAll(space, options, old(G()), id, level, others)
    {
      hide Connect, Linkable, Linked, LinkedList;
      for i := 0 to |others|
        invariant Linkable(G(), id, level, others[i..])
        invariant ConnectAll(space, options, G(), id, level, others[i..]) ==
          ConnectAll(space, options, old(G()), id, level, others)
      {
        ghost var g := G();
        LinkableSplit(g, id, level, others[i..]);
        assert others[i..][1..] == others[i + 1..];
        ConnectEffect(space, options, g, id, level, others[i]);
        Link(id, level, others[i]);
        LinkableLater(g, G(), id, level, others[i], others[i + 1..]);
      }
      assert others[|others|..] == [];
    }

    /** Descends greedily from the entry node to the layer above `to`. */
    method DescendTo(query: Vec, to: nat) returns (entry: Str)
      requires Layered(G()) && Topped(G()) && nodes != map[]
      ensures entry == Descend(space, G(), query, G().entry, G().highest, to)
    {
      hide Layered;
      entry := entryId;
      var level: nat := highestLevel;
      while level > to
        invariant OnLayer(G(), entry, level)
        invariant Descend(space, G(), query, entry, level, to) == Descend(space, G(), query, G().entry, G().highest, to)
      {
        entry := GreedySearch(query, entry, level);
        level := level - 1;
      }
    }

    /** Links the new node on one layer and returns the node to search the next one from. */
    method LinkLayer(id: Str, values: Vec, entry: Str, level: nat) returns (next: Str)
      requires Ready(options, G(), id, entry, level + 1)
      modifies this
      ensures Ready(options, G(), id, next, level)
      ensures LinkLayers(space, options, G(), id, values, next, level) ==
        LinkLayers(space, options, old(G()), id, values, entry, level + 1)
    {
      ghost var g := G();
      ChosenLinkable(space, options, g, id, values, entry, level);
      var candidates := SearchOneLayer(values, [entry], options.efConstruction, level);
      hide ConnectAll, SearchLayer, Linkable, Ready;
      LinkedIsReady(space, options, g, id, values, entry, level);
      var count := if options.maxConnections < |candidates| then options.maxConnections else |candidates|;
      LinkAll(id, level, Ids(candidates)[..count]);
      next := candidates[0].id;
    }

    lemma LinkNoLayers(id: Str, values: Vec, entry: Str)
      requires Ready(options, G(), id, entry, 0)
      ensures LinkLayers(space, options, G(), id, values, entry, 0) == G()
    {
    }

    method LinkDown(id: Str, values: Vec, start: Str, layers: nat)
      requires Ready(options, G(), id, start, layers)
      modifies this
      ensures G() == LinkLayers(space, options, old(G()), id, values, start, layers)
    {
      hide Ready, LinkLayers;
      var entry, left := start, layers;
      while left > 0
        invariant Ready(options, G(), id, entry, left)
        invariant LinkLayers(space, options, G(), id, values, entry, left) ==
          LinkLayers(space, options, old(G()), id, values, start, layers)
      {
        entry := LinkLayer(id, values, entry, left - 1);
        left := left - 1;
      }
      LinkNoLayers(id, values, entry);
    }

    /** Inserts a new, normalized item. */
    method Place(id: Str, values: Vec)
      requires Valid() && id !in nodes
      modifies this
      ensures G() == Added(space, options, old(G()), id, values)
    {
      var level := space.level(id);
      var node := Node(values, level, seq(level + 1, _ => []));
      assert node == NewNode(space, id, values);
      ghost var g := G();
      if |nodes| == 0 {
        assert g.nodes == map[];
        nodes, entryId, highestLevel := map[id := node], id, level;
        return;
      }
      assert g.nodes != map[];
      var entry := DescendTo(values, level);
      PlacedIsReady(space, options, g, id, values, entry);
      hide LinkLayers, Ready, Descend, WellFormed, Layered;
      nodes := nodes[id := node];
      LinkDown(id, values, entry, Min(level, highestLevel) + 1);
      LinkLayersEffect(space, options, g.(nodes := g.nodes[id := node]), id, values, entry, Min(level, g.highest) + 1);
      if level > highestLevel {
        entryId, highestLevel := id, level;
      }
    }

    /** Inserts an item; on any error the graph is unchanged. */
    method Add(rawId: Str, vector: Vec) returns (error: Option<Error>)
      requires Valid()
      modifies this
      ensures Valid()
      ensures error == AddError(space, old(G()), rawId, vector)
      ensures error.Some? ==> G() == old(G())
      ensures error.None? ==>
        G() == Added(space, options, old(G()), space.trim(rawId), space.normalize(vector).value)
    {
      hide Added, WellFormed;
      var id := space.trim(rawId);
      if id == [] { return Some(IdRequired); }
      var normalized := space.normalize(vector);
      if normalized.None? { return Some(InvalidVector); }
      if id in nodes { return Some(DuplicateId); }
      AddKeepsWellFormed(space, options, G(), id, normalized.value);
      Place(id, normalized.value);
      return None;
    }

    /** The nearest items found, best first. */
    method Search(query: Vec, limit: int) returns (r: Outcome<seq<Result>>)
      requires Valid()
      ensures r == SearchOutcome(space, options, G(), query, limit)
    {
      if limit < 0 { return Err(NegativeLimit); }
      var normalized := space.normalize(query);
      if normalized.None? { return Err(InvalidVector); }
      if |nodes| == 0 {
        assert nodes == map[];
        return Ok([]);
      }
      assert nodes != map[];
      var entry := DescendTo(normalized.value, 0);
      var breadth := Max(options.efSearch, limit);
      var candidates := SearchOneLayer(normalized.value, [entry], breadth, 0);
      hide SearchLayer, Descend;
      if limit > 0 && |candidates| > limit { candidates := candidates[..limit]; }
      return Ok(ScoredAll(candidates));
    }
  }

  function AddError(space: Space, g: Graph, rawId: Str, vector: Vec): Option<Error> {
    if space.trim(rawId) == [] then Some(IdRequired)
    else if space.normalize(vector).None? then Some(InvalidVector)
    else if space.trim(rawId) in g.nodes then Some(DuplicateId)
    else None
  }

  function SearchOutcome(space: Space, o: Options, g: Graph, query: Vec, limit: int): Outcome<seq<Result>>
    requires Layered(g) && Topped(g)
  {
    if limit < 0 then Err(NegativeLimit)
    else if space.normalize(query).None? then Err(InvalidVector)
    else Ok(ScoredAll(HnswExact.Search(space, o, g, space.normalize(query).value, limit)))
  }
}
