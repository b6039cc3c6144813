/** Where approximate search is exact: graphs small enough that layer 0 is complete. */
module HnswExact {

  import opened Bytes
  import opened Ordering
  import opened Wrappers
  import opened Vectors
  import opened Hnsw
  import opened HnswBuild
  import opened HnswInsert

  function Max(a: nat, b: nat): nat { if a < b then b else a }

  /** The node from which layer 0 is searched. */
  function Start(space: Space, g: Graph, query: Vec): Str
    requires Layered(g) && Topped(g) && g.nodes != map[]
  {
    Descend(space, g, query, g.entry, g.highest, 0)
  }

  function Search(space: Space, o: Options, g: Graph, query: Vec, limit: nat): seq<Neighbor>
    requires Layered(g) && Topped(g)
  {
    if g.nodes == map[] then []
    else
      LayeredIsClosed(g, 0);
      var found := SearchLayer(space, g, query, [Start(space, g, query)], Max(o.efSearch, limit), 0);
      if limit > 0 && |found| > limit then found[..limit] else found
  }

  /** From a node adjacent to all of its region, a search of breadth two or more sees the whole region; a search of
      breadth one stops where it started. */
  lemma HubSearch(space: Space, g: Graph, query: Vec, hub: Str, breadth: nat, level: nat, region: set<Str>)
    requires LayerClosed(g, level) && ClosedRegion(g, level, region) && hub in region && breadth > 0
    requires forall y :: y in region && y != hub ==> y in Adjacent(g, hub, level)
    ensures breadth >= 2 ==>
      IsTop(Closer, SearchLayer(space, g, query, [hub], breadth, level), breadth, Pool(space, g, query, region))
    ensures breadth == 1 ==> SearchLayer(space, g, query, [hub], breadth, level) == [At(space, g, query, hub)]
  {
    var f := Seed(space, g, query, [hub]);
    var n := At(space, g, query, hub);
    SeedOne(space, g, query, hub);
    if breadth == 1 {
      CloserTotal();
      assert Finished(f, breadth);
    } else {
      SeedSound(space, g, query, [hub], breadth);
      var rest := f.(candidates := []);
      var list := Adjacent(g, hub, level);
      assert f.candidates[1..] == [];
      assert Sound(space, g, query, breadth, rest);
      ExpandSound(space, g, query, breadth, rest, list);
      ExpandVisits(space, g, query, breadth, rest, list);
      var r := Expand(space, g, query, breadth, rest, list);
      assert r.visited == region;
      assert Explore(space, g, query, breadth, level, f) == Explore(space, g, query, breadth, level, r);
      hide Explore, Expand, Seed, Closer;
      ExploreSound(space, g, query, breadth, level, r, region);
      assert Explore(space, g, query, breadth, level, r).visited == region;
    }
  }

  /** Any search returns nodes of the graph, each once and nearest first, and no more than its limit. */
  lemma SearchSound(space: Space, o: Options, g: Graph, query: Vec, limit: nat)
    requires ValidOptions(o) && WellFormed(o, g)
    ensures var r := Search(space, o, g, query, limit);
      && StrictlySorted(Closer, r) && (limit > 0 ==> |r| <= limit)
      && (forall n :: n in r ==> n.id in g.nodes && n == At(space, g, query, n.id))
  {
    if g.nodes != map[] {
      LayeredIsClosed(g, 0);
      var start := Start(space, g, query);
      SearchLayerSound(space, g, query, [start], Max(o.efSearch, limit), 0, g.nodes.Keys);
      hide SearchLayer, Start, WellFormed, Closer, Explore, Seed;
    }
  }

  /** The nodes of a layer. */
  ghost function Layer(g: Graph, level: nat): set<Str> {
    set id | id in g.nodes && OnLayer(g, id, level)
  }

  /** On every layer, every two nodes are neighbours. */
  ghost predicate Complete(g: Graph) {
    forall level: nat :: CompleteAmong(g, level, Layer(g, level))
  }

  ghost predicate CompleteAmong(g: Graph, level: nat, ids: set<Str>) {
    forall x, y :: x in ids && y in ids && x != y ==> y in Adjacent(g, x, level)
  }

  lemma ListRoom(g: Graph, level: nat, x: Str, ids: set<Str>)
    requires Layered(g) && x in ids && forall y :: y in Adjacent(g, x, level) ==> y in ids
    ensures |Adjacent(g, x, level)| < |ids|
  {
    var list := Adjacent(g, x, level);
    DistinctCard(list);
    assert Elements(list) <= ids - {x};
    SubsetSize(Elements(list), ids - {x});
  }

  /** The layer before the new node is linked on it: few enough nodes, all neighbours of each other. */
  ghost predicate Small(o: Options, g: Graph, level: nat, id: Str) {
    |Layer(g, level) - {id}| <= o.maxConnections && CompleteAmong(g, level, Layer(g, level) - {id})
  }

  lemma UnlinkedLayer(g: Graph, level: nat, id: Str)
    requires Layered(g) && Unlinked(g, id, level)
    ensures ClosedRegion(g, level, Layer(g, level) - {id})
  {
    forall x, n | x in Layer(g, level) - {id} && n in Adjacent(g, x, level) ensures n in Layer(g, level) - {id} {
      assert OnLayer(g, n, level);
    }
  }

  /** A node of a small complete layer has room for the new neighbour and keeps all the others. */
  lemma MemberGainsNewcomer(space: Space, o: Options, g: Graph, id: Str, level: nat, others: seq<Str>, x: Str)
    requires Linkable(g, id, level, others) && Unlinked(g, id, level) && Small(o, g, level, id)
    requires x in others && x in Layer(g, level) - {id}
    ensures Layer(g, level) - {id} - {x} +
      {id} <= Elements(Adjacent(ConnectAll(space, o, g, id, level, others), x, level))
  {
    UnlinkedLayer(g, level, id);
    ListRoom(g, level, x, Layer(g, level) - {id});
    ConnectAllLists(space, o, g, id, level, others, x);
  }

  /** Linking a small complete layer makes the new node everyone's neighbour. */
  lemma LinkLayerComplete(space: Space, o: Options, g: Graph, id: Str, v: Vec, entry: Str, level: nat)
    requires Ready(o, g, id, entry, level + 1) && Small(o, g, level, id)
    ensures LayerClosed(g, level)
    ensures CompleteAmong(ConnectAll(space, o, g, id, level, Chosen(space, o, g, v, entry, level)), level,
      Layer(g, level))
  {
    hide ConnectAll, Chosen, Ready, Linkable, Layered, SameNodes, SearchLayer, Bounded, LayerClosed, Small, Unlinked,
      Layer;
    ChosenLinkable(space, o, g, id, v, entry, level);
    var chosen, prior := Chosen(space, o, g, v, entry, level), Layer(g, level) - {id};
    ChosenIsEveryone(space, o, g, id, v, entry, level);
    var h := ConnectAll(space, o, g, id, level, chosen);
    ConnectAllEffect(space, o, g, id, level, chosen);
    NothingBefore(g, id, level);
    forall x | x in prior ensures prior - {x} + {id} <= Elements(Adjacent(h, x, level)) {
      MemberGainsNewcomer(space, o, g, id, level, chosen, x);
    }
    hide Adjacent;
    forall x, y | x in Layer(g, level) && y in Layer(g, level) && x != y ensures y in Adjacent(h, x, level) {
      if x != id {
        assert x in prior;
        assert y in prior - {x} + {id};
      } else {
        assert y in prior;
      }
    }
  }

  lemma NothingBefore(g: Graph, id: Str, level: nat)
    requires Unlinked(g, id, level)
    ensures Adjacent(g, id, level) == []
  {
  }

  lemma ChosenIsEveryone(space: Space, o: Options, g: Graph, id: Str, v: Vec, entry: Str, level: nat)
    requires Ready(o, g, id, entry, level + 1) && Small(o, g, level, id) && LayerClosed(g, level)
    ensures forall x :: x in Layer(g, level) - {id} ==> x in Chosen(space, o, g, v, entry, level)
  {
    var prior := Layer(g, level) - {id};
    assert Unlinked(g, id, level);
    UnlinkedLayer(g, level, id);
    assert entry in prior;
    HubSearch(space, g, v, entry, o.efConstruction, level, prior);
    var found := SearchLayer(space, g, v, [entry], o.efConstruction, level);
    PoolCard(space, g, v, prior);
    WholePool(found, Pool(space, g, v, prior));
    hide SearchLayer, Closer;
    assert |found| <= o.maxConnections;
    assert Ids(found)[..|found|] == Ids(found);
    forall x | x in prior ensures x in Ids(found) {
      assert At(space, g, v, x) in Elements(found);
      var i :| 0 <= i < |found| && found[i] == At(space, g, v, x);
      assert Ids(found)[i] == x;
    }
  }

  lemma LayerSame(g: Graph, h: Graph, level: nat)
    requires SameNodes(g, h)
    ensures Layer(h, level) == Layer(g, level)
  {
    forall id ensures id in Layer(h, level) <==> id in Layer(g, level) {
      assert id in g.nodes <==> id in h.nodes;
    }
  }

  /** Lists of one layer carry over unchanged. */
  lemma SmallCarries(o: Options, g: Graph, h: Graph, level: nat, id: Str)
    requires SameNodes(g, h) && (forall x :: Adjacent(h, x, level) == Adjacent(g, x, level)) && Small(o, g, level, id)
    ensures Small(o, h, level, id)
  {
    LayerSame(g, h, level);
    hide SameNodes, Adjacent, Layer;
  }

  /** Linking layer after layer completes each of them and touches none above. */
  lemma {:induction false} LinkLayersComplete(space: Space, o: Options, g: Graph, id: Str, v: Vec, entry: Str,
      layers: nat)
    requires Ready(o, g, id, entry, layers) && forall l :: 0 <= l < layers ==> Small(o, g, l, id)
    ensures var h := LinkLayers(space, o, g, id, v, entry, layers);
      && (forall l :: 0 <= l < layers ==> CompleteAmong(h, l, Layer(g, l)))
      && (forall x, l: nat :: l >= layers ==> Adjacent(h, x, l) == Adjacent(g, x, l))
    decreases layers
  {
    if layers > 0 {
      var level := layers - 1;
      LayeredIsClosed(g, level);
      LinkedIsReady(space, o, g, id, v, entry, level);
      ChosenLinkable(space, o, g, id, v, entry, level);
      LinkLayerComplete(space, o, g, id, v, entry, level);
      var chosen := Chosen(space, o, g, v, entry, level);
      var found := SearchLayer(space, g, v, [entry], o.efConstruction, level);
      var h := ConnectAll(space, o, g, id, level, chosen);
      var end := LinkLayers(space, o, g, id, v, entry, layers);
      assert end == LinkLayers(space, o, h, id, v, found[0].id, level);
      ConnectAllEffect(space, o, g, id, level, chosen);
      hide ConnectAll, Chosen, Adjacent, Ready, Linkable, Layered, SearchLayer, LinkLayers, Small, Layer;
      forall l | 0 <= l < level ensures Small(o, h, l, id) {
        SmallCarries(o, g, h, l, id);
      }
      LinkLayersComplete(space, o, h, id, v, found[0].id, level);
      forall l | 0 <= l < layers ensures CompleteAmong(end, l, Layer(g, l)) {
        LayerSame(g, h, l);
        if l == level {
          SameListsComplete(h, end, level, Layer(g, level));
        }
      }
    }
  }

  lemma SameListsComplete(g: Graph, h: Graph, level: nat, ids: set<Str>)
    requires CompleteAmong(g, level, ids) && forall x :: Adjacent(h, x, level) == Adjacent(g, x, level)
    ensures CompleteAmong(h, level, ids)
  {
    hide Adjacent;
  }

  /** Where the newcomer stands: on each layer it reaches it joins the nodes that were there. */
  lemma PlacedShape(space: Space, g: Graph, id: Str, v: Vec, level: nat)
    requires id !in g.nodes
    ensures var placed := g.(nodes := g.nodes[id := NewNode(space, id, v)]);
      && Layer(placed, level) == (if level <= space.level(id) then Layer(g, level) + {id} else Layer(g, level))
      && Layer(placed, level) - {id} == Layer(g, level)
      && (forall x :: Adjacent(placed, x, level) == Adjacent(g, x, level))
  {
    var placed := g.(nodes := g.nodes[id := NewNode(space, id, v)]);
    forall x ensures x in Layer(placed, level) <==> x in Layer(g, level) || (x == id && level <= space.level(id)) {
      assert x != id ==> (OnLayer(placed, x, level) <==> OnLayer(g, x, level));
    }
  }

  lemma PlacedLayers(space: Space, o: Options, g: Graph, id: Str, v: Vec, level: nat)
    requires id !in g.nodes && Complete(g) && |g.nodes| <= o.maxConnections
    ensures var placed := g.(nodes := g.nodes[id := NewNode(space, id, v)]);
      && Layer(placed, level) == (if level <= space.level(id) then Layer(g, level) + {id} else Layer(g, level))
      && (forall x :: Adjacent(placed, x, level) == Adjacent(g, x, level))
      && Small(o, placed, level, id)
  {
    hide Adjacent, CompleteAmong;
    PlacedShape(space, g, id, v, level);
    assert CompleteAmong(g, level, Layer(g, level));
    assert Layer(g, level) <= g.nodes.Keys && |g.nodes.Keys| == |g.nodes|;
    hide Layer;
    SubsetSize(Layer(g, level), g.nodes.Keys);
    SameListsComplete(g, g.(nodes := g.nodes[id := NewNode(space, id, v)]), level, Layer(g, level));
  }

  /** Up to `maxConnections + 1` items, every addition leaves every layer complete. */
  lemma AddKeepsComplete(space: Space, o: Options, g: Graph, id: Str, v: Vec)
    requires ValidOptions(o) && WellFormed(o, g) && id !in g.nodes
    requires Complete(g) && |g.nodes| <= o.maxConnections
    ensures Complete(Added(space, o, g, id, v))
  {
    if g.nodes == map[] {
      assert forall level: nat :: Layer(Added(space, o, g, id, v), level) <= {id};
    } else {
      var node := NewNode(space, id, v);
      var entry := Descend(space, g, v, g.entry, g.highest, node.level);
      var placed := g.(nodes := g.nodes[id := node]);
      PlacedIsReady(space, o, g, id, v, entry);
      var layers := Min(node.level, g.highest) + 1;
      var linked := LinkLayers(space, o, placed, id, v, entry, layers);
      hide LinkLayers, Descend, Ready, Added, Small, CompleteAmong, Layer, Layered, Bounded;
      forall level: nat ensures Small(o, placed, level, id) {
        PlacedLayers(space, o, g, id, v, level);
      }
      LinkLayersComplete(space, o, placed, id, v, entry, layers);
      LinkLayersEffect(space, o, placed, id, v, entry, layers);
      AddedLists(space, o, g, id, v);
      forall level: nat ensures CompleteAmong(Added(space, o, g, id, v), level,
        Layer(Added(space, o, g, id, v), level)) {
        PlacedLayers(space, o, g, id, v, level);
        LayerSame(placed, linked, level);
        SameNodesSameLayer(linked, Added(space, o, g, id, v), level);
        if level < layers {
          SameListsComplete(linked, Added(space, o, g, id, v), level, Layer(placed, level));
        } else {
          AboveLinked(space, o, g, id, v, placed, linked, level);
        }
      }
    }
  }

  lemma SameNodesSameLayer(g: Graph, h: Graph, level: nat)
    requires g.nodes == h.nodes
    ensures Layer(g, level) == Layer(h, level) && forall x :: Adjacent(g, x, level) == Adjacent(h, x, level)
  {
  }

  /** Above the layers it was linked on, the newcomer is alone or absent. */
  lemma AboveLinked(space: Space, o: Options, g: Graph, id: Str, v: Vec, placed: Graph, linked: Graph, level: nat)
    requires WellFormed(o, g) && id !in g.nodes && g.nodes != map[] && Complete(g) && |g.nodes| <= o.maxConnections
    requires ValidOptions(o) && placed == g.(nodes := g.nodes[id := NewNode(space, id, v)])
    requires level > Min(space.level(id), g.highest) && linked.nodes == Added(space, o, g, id, v).nodes
    requires forall x :: Adjacent(linked, x, level) == Adjacent(placed, x, level)
    ensures CompleteAmong(Added(space, o, g, id, v), level, Layer(placed, level))
  {
    hide Added;
    PlacedLayers(space, o, g, id, v, level);
    SameNodesSameLayer(linked, Added(space, o, g, id, v), level);
    assert CompleteAmong(g, level, Layer(g, level));
    if level > g.highest {
      assert Layer(g, level) == {};
    } else {
      SameListsComplete(g, Added(space, o, g, id, v), level, Layer(g, level));
    }
  }

  /** Beyond the entry node, an addition is exactly its linking. */
  lemma AddedLists(space: Space, o: Options, g: Graph, id: Str, v: Vec)
    requires ValidOptions(o) && WellFormed(o, g) && id !in g.nodes && g.nodes != map[]
    ensures var node := NewNode(space, id, v);
      var entry := Descend(space, g, v, g.entry, g.highest, node.level);
      var placed := g.(nodes := g.nodes[id := node]);
      var layers := Min(node.level, g.highest) + 1;
      Ready(o, placed, id, entry, layers) &&
      var linked := LinkLayers(space, o, placed, id, v, entry, layers);
      && Added(space, o, g, id, v).nodes == linked.nodes
      && Added(space, o, g, id, v).entry == (if node.level > g.highest then id else linked.entry)
      && Added(space, o, g, id, v).highest == (if node.level > g.highest then node.level else linked.highest)
  {
    var node := NewNode(space, id, v);
    PlacedIsReady(space, o, g, id, v, Descend(space, g, v, g.entry, g.highest, node.level));
    hide LinkLayers, Descend, Ready, WellFormed;
  }

  /** On a complete layer 0, search returns exactly the best of all nodes, cut to the limit or, without one, to the
      search breadth; a search of breadth one over several nodes returns just the node its descent ended on. */
  lemma CompleteSearchIsExact(space: Space, o: Options, g: Graph, query: Vec, limit: nat)
    requires ValidOptions(o) && WellFormed(o, g) && Complete(g)
    ensures Max(o.efSearch, limit) >= 2 || |g.nodes| <= 1 ==>
      IsTop(Closer, Search(space, o, g, query, limit), if limit > 0 then limit else o.efSearch,
        Pool(space, g, query, g.nodes.Keys))
    ensures Max(o.efSearch, limit) == 1 && g.nodes != map[] ==>
      Search(space, o, g, query, limit) == [At(space, g, query, Start(space, g, query))]
  {
    var all := g.nodes.Keys;
    if g.nodes == map[] {
      assert Pool(space, g, query, all) == {};
    } else {
      LayeredIsClosed(g, 0);
      var breadth := Max(o.efSearch, limit);
      var start := Start(space, g, query);
      BottomComplete(g);
      HubSearch(space, g, query, start, breadth, 0, all);
      var found := SearchLayer(space, g, query, [start], breadth, 0);
      hide SearchLayer, Start, Closer;
      if breadth >= 2 {
        if limit > 0 {
          TopPrefix(Closer, found, breadth, limit, Pool(space, g, query, all));
        }
      } else if |g.nodes| <= 1 {
        OneNode(space, g, query, start);
      }
    }
  }

  lemma BottomComplete(g: Graph)
    requires Complete(g)
    ensures CompleteAmong(g, 0, g.nodes.Keys)
  {
    assert CompleteAmong(g, 0, Layer(g, 0));
    assert Layer(g, 0) == g.nodes.Keys;
  }

  lemma OneNode(space: Space, g: Graph, query: Vec, id: Str)
    requires id in g.nodes && |g.nodes| <= 1
    ensures IsTop(Closer, [At(space, g, query, id)], 1, Pool(space, g, query, g.nodes.Keys))
  {
    SubsetFull({id}, g.nodes.Keys);
    assert Pool(space, g, query, {id}) == {At(space, g, query, id)};
  }

  // ---------------------------------------------------------------------------
  // Breadth one

  /** No node is nearer. */
  ghost predicate Nearest(space: Space, g: Graph, query: Vec, id: Str) {
    id in g.nodes && forall x :: x in g.nodes ==> !Closer(At(space, g, query, x), At(space, g, query, id))
  }

  /** On a complete layer the greedy walk ends at the nearest node of the layer. */
  lemma GreedyFindsNearest(space: Space, g: Graph, query: Vec, current: Str, level: nat)
    requires Layered(g) && CompleteAmong(g, level, Layer(g, level)) && OnLayer(g, current, level)
    ensures LayerClosed(g, level)
    ensures var r := Greedy(space, g, query, current, level);
      OnLayer(g, r, level) && forall x :: x in Layer(g, level) ==>
        !Closer(At(space, g, query, x), At(space, g, query, r))
  {
    LayeredIsClosed(g, level);
    GreedyStaysInside(space, g, query, current, level, Layer(g, level));
    CloserTotal();
    hide Closer, Adjacent;
  }

  /** Where the search of layer 0 starts: at the entry of a flat graph, and otherwise at the nearest node of layer 1. */
  lemma StartIsNearestAbove(space: Space, g: Graph, query: Vec)
    requires Layered(g) && Topped(g) && g.nodes != map[] && Complete(g)
    ensures g.highest == 0 ==> Start(space, g, query) == g.entry
    ensures g.highest > 0 ==> OnLayer(g, Start(space, g, query), 1) && forall x :: x in Layer(g, 1) ==>
      !Closer(At(space, g, query, x), At(space, g, query, Start(space, g, query)))
  {
    if g.highest > 0 {
      DescentEndsNearest(space, g, query, g.entry, g.highest);
    }
  }

  lemma {:induction false} DescentEndsNearest(space: Space, g: Graph, query: Vec, entry: Str, from: nat)
    requires Layered(g) && Complete(g) && from > 0 && OnLayer(g, entry, from)
    ensures var r := Descend(space, g, query, entry, from, 0);
      OnLayer(g, r, 1) && forall x :: x in Layer(g, 1) ==> !Closer(At(space, g, query, x), At(space, g, query, r))
    decreases from
  {
    hide Closer, Greedy, CompleteAmong, Layered;
    assert CompleteAmong(g, from, Layer(g, from));
    GreedyFindsNearest(space, g, query, entry, from);
    if from > 1 {
      DescentEndsNearest(space, g, query, Greedy(space, g, query, entry, from), from - 1);
    }
  }

  /** A search of breadth one stops at once on layer 0. It is exact if and only if the node that brute force finds
      nearest is on a higher layer or, where there is none, is the entry of the graph. */
  lemma NarrowSearchExactIff(space: Space, o: Options, g: Graph, query: Vec, limit: nat, nearest: Str)
    requires ValidOptions(o) && WellFormed(o, g) && Complete(g) && Nearest(space, g, query, nearest)
    requires Max(o.efSearch, limit) == 1
    ensures IsTop(Closer, Search(space, o, g, query, limit), 1, Pool(space, g, query, g.nodes.Keys)) <==>
      if g.highest == 0 then nearest == g.entry else OnLayer(g, nearest, 1)
  {
    CompleteSearchIsExact(space, o, g, query, limit);
    StartIsNearestAbove(space, g, query);
    OneOfPool(space, g, query, Start(space, g, query));
    SameNearest(space, g, query, nearest, Start(space, g, query));
    hide Search, Start, Complete, Closer, IsTop, Pool, Layered;
  }

  lemma SameNearest(space: Space, g: Graph, query: Vec, a: Str, b: Str)
    requires Nearest(space, g, query, a) && b in g.nodes
    ensures Nearest(space, g, query, b) <==> a == b
    ensures a == b || Closer(At(space, g, query, a), At(space, g, query, b))
  {
    CloserTotal();
    hide Closer;
    assert At(space, g, query, a).id == a && At(space, g, query, b).id == b;
  }

  lemma OneOfPool(space: Space, g: Graph, query: Vec, start: Str)
    requires start in g.nodes
    ensures IsTop(Closer, [At(space, g, query, start)], 1, Pool(space, g, query, g.nodes.Keys)) <==>
      Nearest(space, g, query, start)
  {
    var n := At(space, g, query, start);
    var pool := Pool(space, g, query, g.nodes.Keys);
    CloserTotal();
    PoolCard(space, g, query, g.nodes.Keys);
    hide Closer;
    assert forall id :: id in g.nodes ==> At(space, g, query, id) in pool;
    assert Elements([n]) == {n};
    if forall id :: id in g.nodes ==> !Closer(At(space, g, query, id), n) {
      forall y | y in pool && y !in [n] ensures Closer(n, y) {
        assert n in [n];
      }
    } else {
      var id :| id in g.nodes && Closer(At(space, g, query, id), n);
      assert At(space, g, query, id) != n;
      assert n in [n];
    }
  }

  // ---------------------------------------------------------------------------
  // Whole insertion sequences

  datatype Item = Item(id: Str, vector: Vec)

  ghost predicate DistinctIds(items: seq<Item>) {
    forall i, j :: 0 <= i < j < |items| ==> items[i].id != items[j].id
  }

  function ItemIds(items: seq<Item>): set<Str> {
    set item | item in items :: item.id
  }

  const EMPTY_GRAPH := Graph(map[], [], 0)

  lemma EmptyWellFormed(o: Options)
    ensures WellFormed(o, EMPTY_GRAPH) && Complete(EMPTY_GRAPH)
  {
    assert forall l: nat :: Layer(EMPTY_GRAPH, l) == {};
    assert forall x, l: nat :: Adjacent(EMPTY_GRAPH, x, l) == [];
  }

  lemma LastIsNew(items: seq<Item>)
    requires DistinctIds(items) && items != []
    ensures ItemIds(items) == ItemIds(items[..|items| - 1]) + {items[|items| - 1].id}
    ensures items[|items| - 1].id !in ItemIds(items[..|items| - 1])
  {
    assert items == items[..|items| - 1] + [items[|items| - 1]];
  }

  /** The graph left by adding distinct items in order. */
  function Build(space: Space, o: Options, items: seq<Item>): (g: Graph)
    requires ValidOptions(o) && DistinctIds(items)
    ensures WellFormed(o, g) && g.nodes.Keys == ItemIds(items)
  {
    EmptyWellFormed(o);
    if items == [] then EMPTY_GRAPH
    else
      hide WellFormed, ItemIds;
      LastIsNew(items);
      var g := Build(space, o, items[..|items| - 1]);
      var last := items[|items| - 1];
      AddKeepsWellFormed(space, o, g, last.id, last.vector);
      Added(space, o, g, last.id, last.vector)
  }

  lemma {:induction false} BuildKeepsVectors(space: Space, o: Options, items: seq<Item>, i: nat)
    requires ValidOptions(o) && DistinctIds(items) && i < |items|
    ensures items[i].id in Build(space, o, items).nodes
    ensures Build(space, o, items).nodes[items[i].id].vector == items[i].vector
  {
    hide WellFormed, Added;
    var init, last := items[..|items| - 1], items[|items| - 1];
    LastIsNew(items);
    AddKeepsWellFormed(space, o, Build(space, o, init), last.id, last.vector);
    if i < |init| {
      BuildKeepsVectors(space, o, init, i);
    }
  }

  lemma {:induction false} BuildIsComplete(space: Space, o: Options, items: seq<Item>)
    requires ValidOptions(o) && DistinctIds(items) && |items| <= o.maxConnections + 1
    ensures Complete(Build(space, o, items))
    ensures |Build(space, o, items).nodes| == |items|
  {
    if items == [] {
      EmptyWellFormed(o);
    } else {
      var init, last := items[..|items| - 1], items[|items| - 1];
      BuildIsComplete(space, o, init);
      LastIsNew(items);
      hide Complete, WellFormed, Added, ItemIds;
      var g := Build(space, o, init);
      AddKeepsComplete(space, o, g, last.id, last.vector);
      AddKeepsWellFormed(space, o, g, last.id, last.vector);
      assert |g.nodes.Keys + {last.id}| == |g.nodes.Keys| + 1;
    }
  }

  /** For any insertion sequence of at most `maxConnections + 1` distinct items, the approximate search agrees with
      the exact ranking of all of them. */
  lemma SmallGraphsSearchExactly(space: Space, o: Options, items: seq<Item>, query: Vec, limit: nat)
    requires ValidOptions(o) && DistinctIds(items) && |items| <= o.maxConnections + 1
    requires Max(o.efSearch, limit) >= 2 || |items| <= 1
    ensures var g := Build(space, o, items);
      IsTop(Closer, Search(space, o, g, query, limit), if limit > 0 then limit else o.efSearch,
        Pool(space, g, query, ItemIds(items)))
  {
    BuildIsComplete(space, o, items);
    CompleteSearchIsExact(space, o, Build(space, o, items), query, limit);
  }

  /** Levels come from the IDs, and a graph without higher layers is entered by its first item. */
  lemma {:induction false} BuildLevels(space: Space, o: Options, items: seq<Item>)
    requires ValidOptions(o) && DistinctIds(items) && items != []
    ensures var g := Build(space, o, items);
      && (forall x :: x in g.nodes ==> g.nodes[x].level == space.level(x))
      && (g.highest == 0 ==> g.entry == items[0].id)
  {
    hide WellFormed, Complete;
    var init, last := items[..|items| - 1], items[|items| - 1];
    LastIsNew(items);
    if init == [] {
      assert Build(space, o, init) == EMPTY_GRAPH;
    } else {
      hide Added;
      BuildLevels(space, o, init);
      assert init[0] in init && init[0].id in ItemIds(init);
      AddedShape(space, o, Build(space, o, init), last.id, last.vector);
    }
  }

  lemma AddedShape(space: Space, o: Options, g: Graph, id: Str, v: Vec)
    requires ValidOptions(o) && WellFormed(o, g) && id !in g.nodes && g.nodes != map[]
    ensures var h := Added(space, o, g, id, v);
      && (forall x :: x in h.nodes ==>
           (x == id || x in g.nodes) && h.nodes[x].level == if x == id then space.level(id) else g.nodes[x].level)
      && h.highest == (if space.level(id) > g.highest then space.level(id) else g.highest)
      && h.entry == (if space.level(id) > g.highest then id else g.entry)
  {
    var node := NewNode(space, id, v);
    var entry := Descend(space, g, v, g.entry, g.highest, node.level);
    var placed := g.(nodes := g.nodes[id := node]);
    PlacedIsReady(space, o, g, id, v, entry);
    LinkLayersEffect(space, o, placed, id, v, entry, Min(node.level, g.highest) + 1);
    AddedLists(space, o, g, id, v);
    hide LinkLayers, Descend, Ready, Added, WellFormed, Layered, Bounded;
    var h := Added(space, o, g, id, v);
    forall x | x in h.nodes
      ensures (x == id || x in g.nodes) && h.nodes[x].level == (if x == id then node.level else g.nodes[x].level) {
      assert x in placed.nodes;
    }
  }

  /** For an insertion sequence of at most `maxConnections + 1` distinct items and breadth one: exact if and only if the
      nearest item is on a higher layer or, where no item is, was inserted first. */
  lemma SmallGraphsSearchNarrowlyIff(space: Space, o: Options, items: seq<Item>, query: Vec, limit: nat, nearest: Str)
    requires ValidOptions(o) && DistinctIds(items) && 0 < |items| <= o.maxConnections + 1 && Max(o.efSearch, limit) == 1
    requires Nearest(space, Build(space, o, items), query, nearest)
    ensures IsTop(Closer, Search(space, o, Build(space, o, items), query, limit), 1,
                  Pool(space, Build(space, o, items), query, ItemIds(items))) <==>
      space.level(nearest) > 0 || (nearest == items[0].id && forall x :: x in items ==> space.level(x.id) == 0)
  {
    hide WellFormed, Complete, IsTop, Search, Pool, Nearest, Build;
    var g := Build(space, o, items);
    BuildIsComplete(space, o, items);
    BuildLevels(space, o, items);
    NarrowSearchExactIff(space, o, g, query, limit, nearest);
    HighestOf(space, o, items, g);
    NearestInside(space, g, query, nearest);
  }

  lemma NearestInside(space: Space, g: Graph, query: Vec, nearest: Str)
    requires Nearest(space, g, query, nearest)
    ensures nearest in g.nodes
  {
  }

  lemma HighestOf(space: Space, o: Options, items: seq<Item>, g: Graph)
    requires WellFormed(o, g) && g.nodes.Keys == ItemIds(items) && items != []
    requires forall x :: x in g.nodes ==> g.nodes[x].level == space.level(x)
    ensures g.highest == 0 <==> forall x :: x in items ==> space.level(x.id) == 0
    ensures forall id :: id in g.nodes && space.level(id) > 0 ==> g.highest > 0
  {
    assert items[0] in items;
    assert items[0].id in g.nodes;
    forall x | x in items ensures x.id in g.nodes {}
    var top :| top in items && top.id == g.entry;
  }

  /** All items on layer 0, and one vector similar to every query. */
  function MarkedSpace(): Space {
    Space(s => s, v => Some(v), (q, v) => if v == [1.0] then 1.0 else 0.0, _ => 0)
  }

  /** So it is not always exact: of two items on layer 0, the second of which is nearer, breadth one finds the first. */
  lemma NarrowSearchCanMiss()
    ensures var space := MarkedSpace();
      var o, items := Options(2, 2, 1), [Item([97], [0.0]), Item([98], [1.0])];
      && ValidOptions(o) && DistinctIds(items)
      && !IsTop(Closer, Search(space, o, Build(space, o, items), [1.0], 1), 1,
                Pool(space, Build(space, o, items), [1.0], ItemIds(items)))
  {
    var space := MarkedSpace();
    var o, items := Options(2, 2, 1), [Item([97], [0.0]), Item([98], [1.0])];
    hide Build, WellFormed, IsTop, Search, Pool, Less, Nearest;
    assert items[0].id[0] != items[1].id[0];
    var g := Build(space, o, items);
    BuildKeepsVectors(space, o, items, 0);
    BuildKeepsVectors(space, o, items, 1);
    assert g.nodes.Keys == {[97], [98]};
    MarkedIsNearest(g);
    SmallGraphsSearchNarrowlyIff(space, o, items, [1.0], 1, [98]);
  }

  lemma MarkedIsNearest(g: Graph)
    requires g.nodes.Keys == {[97], [98]} && g.nodes[[97]].vector == [0.0] && g.nodes[[98]].vector == [1.0]
    ensures Nearest(MarkedSpace(), g, [1.0], [98])
  {
    LessIrreflexive([98]);
  }
}
