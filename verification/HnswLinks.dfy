/** Which nodes an insertion links: on every layer the closest of those the layer search finds, in both directions. */
module HnswLinks {

  import opened Bytes
  import opened Ordering
  import opened Vectors
  import opened Hnsw
  import opened HnswBuild
  import opened HnswInsert
  import HnswExact

  // ---------------------------------------------------------------------------
  // A layer search depends only on that layer's lists and the vectors it can reach

  ghost predicate SameView(space: Space, g: Graph, h: Graph, query: Vec, level: nat, region: set<Str>) {
    && (forall x :: Adjacent(h, x, level) == Adjacent(g, x, level))
    && (forall x :: x in region ==> At(space, h, query, x) == At(space, g, query, x))
    && ClosedRegion(g, level, region)
  }

  ghost predicate Inside(f: Frontier, region: set<Str>) {
    forall n :: n in f.candidates ==> n.id in region
  }

  lemma VisitInside(space: Space, g: Graph, query: Vec, breadth: nat, f: Frontier, id: Str, region: set<Str>)
    requires Inside(f, region) && id in region
    ensures Inside(Visit(space, g, query, breadth, f, id), region)
  {
    var n := At(space, g, query, id);
    var candidates := Insert(Closer, n, f.candidates);
    forall x | x in candidates ensures x.id in region {
      assert x in multiset(candidates);
      assert x == n || x in f.candidates;
    }
  }

  lemma {:induction false} ExpandSame(space: Space, g: Graph, h: Graph, query: Vec, breadth: nat, level: nat,
      region: set<Str>, f: Frontier, list: seq<Str>)
    requires SameView(space, g, h, query, level, region) && Inside(f, region) && forall x :: x in list ==> x in region
    ensures Expand(space, h, query, breadth, f, list) == Expand(space, g, query, breadth, f, list)
    ensures Inside(Expand(space, g, query, breadth, f, list), region)
    decreases |list|
  {
    hide Inside, SameView;
    if list != [] {
      assert Visit(space, h, query, breadth, f, list[0]) == Visit(space, g, query, breadth, f, list[0]) by {
        VisitSame(space, g, h, query, breadth, level, region, f, list[0]);
      }
      VisitInside(space, g, query, breadth, f, list[0], region);
      ExpandSame(space, g, h, query, breadth, level, region, Visit(space, g, query, breadth, f, list[0]), list[1..]);
    }
  }

  lemma VisitSame(space: Space, g: Graph, h: Graph, query: Vec, breadth: nat, level: nat, region: set<Str>, f: Frontier,
      id: Str)
    requires SameView(space, g, h, query, level, region) && id in region
    ensures Visit(space, h, query, breadth, f, id) == Visit(space, g, query, breadth, f, id)
  {
    hide At, Insert, Offer, Admits;
  }

  lemma {:induction false} ExploreSame(space: Space, g: Graph, h: Graph, query: Vec, breadth: nat, level: nat,
      region: set<Str>, f: Frontier)
    requires SameView(space, g, h, query, level, region) && Inside(f, region)
    requires LayerClosed(g, level) && LayerClosed(h, level)
    ensures Explore(space, h, query, breadth, level, f) == Explore(space, g, query, breadth, level, f)
    decreases Work(g, f)
  {
    hide Expand, Work, Adjacent, At;
    if !Finished(f, breadth) {
      var list, rest := Adjacent(g, f.candidates[0].id, level), f.(candidates := f.candidates[1..]);
      assert f.candidates[0] in f.candidates;
      ExploreShrinks(space, g, query, breadth, level, f);
      ExpandSame(space, g, h, query, breadth, level, region, rest, list);
      ExploreSame(space, g, h, query, breadth, level, region, Expand(space, g, query, breadth, rest, list));
    }
  }

  lemma ExploreShrinks(space: Space, g: Graph, query: Vec, breadth: nat, level: nat, f: Frontier)
    requires LayerClosed(g, level) && !Finished(f, breadth)
    ensures var list := Adjacent(g, f.candidates[0].id, level);
      Work(g, Expand(space, g, query, breadth, f.(candidates := f.candidates[1..]), list)) < Work(g, f)
  {
    var list := Adjacent(g, f.candidates[0].id, level);
    ExpandWork(space, g, query, breadth, f.(candidates := f.candidates[1..]), list);
  }

  lemma SearchLayerSame(space: Space, g: Graph, h: Graph, query: Vec, entry: Str, breadth: nat, level: nat,
      region: set<Str>)
    requires SameView(space, g, h, query, level, region) && entry in region
    requires LayerClosed(g, level) && LayerClosed(h, level)
    ensures SearchLayer(space, h, query, [entry], breadth, level)
      == SearchLayer(space, g, query, [entry], breadth, level)
  {
    hide Explore, SameView;
    SeedOne(space, g, query, entry);
    SeedOne(space, h, query, entry);
    SameAt(space, g, h, query, level, region, entry);
    ExploreSame(space, g, h, query, breadth, level, region, Seed(space, g, query, [entry]));
  }

  lemma SameAt(space: Space, g: Graph, h: Graph, query: Vec, level: nat, region: set<Str>, id: Str)
    requires SameView(space, g, h, query, level, region) && id in region
    ensures At(space, h, query, id) == At(space, g, query, id)
  {
  }

  // ---------------------------------------------------------------------------
  // The closest of what is found

  /** `list` names, in order, the `limit` closest of the nodes in `found`. */
  ghost predicate ClosestOf(space: Space, g: Graph, v: Vec, list: seq<Str>, limit: nat, found: seq<Neighbor>) {
    IsTop(Closer, Ranking(space, g, v, list), limit, Elements(found))
  }

  lemma ChosenAreClosest(space: Space, o: Options, g: Graph, v: Vec, entry: Str, level: nat)
    requires ValidOptions(o) && LayerClosed(g, level) && entry in g.nodes
    ensures ClosestOf(space, g, v, Chosen(space, o, g, v, entry, level), o.maxConnections,
                      SearchLayer(space, g, v, [entry], o.efConstruction, level))
  {
    hide SearchLayer, IsTop, Closer, Explore;
    var found := SearchLayer(space, g, v, [entry], o.efConstruction, level);
    FoundSorted(space, o, g, v, entry, level);
    PrefixIsTop(Closer, found, o.maxConnections);
    var k := Min(o.maxConnections, |found|);
    var list := Chosen(space, o, g, v, entry, level);
    forall i | 0 <= i < k ensures Ranking(space, g, v, list)[i] == found[i] {
      assert found[i] in found;
    }
    assert Ranking(space, g, v, list) == found[..k];
  }

  lemma FoundSorted(space: Space, o: Options, g: Graph, v: Vec, entry: Str, level: nat)
    requires ValidOptions(o) && LayerClosed(g, level) && entry in g.nodes
    ensures var found := SearchLayer(space, g, v, [entry], o.efConstruction, level);
      && TotalOrder(Closer) && StrictlySorted(Closer, found) && found != []
      && (forall n :: n in found ==> n == At(space, g, v, n.id))
  {
    CloserTotal();
    hide Explore, Closer;
    SearchLayerSound(space, g, v, [entry], o.efConstruction, level, g.nodes.Keys);
  }

  /** The other end: each chosen node keeps the closest of its old neighbours and the new one. */
  lemma {:induction false} ConnectAllKeepsClosest(space: Space, o: Options, g: Graph, id: Str, level: nat,
      others: seq<Str>, x: Str)
    requires Linkable(g, id, level, others) && x in others
    ensures var h := ConnectAll(space, o, g, id, level, others);
      x in g.nodes && IsTop(Closer, Ranking(space, g, g.nodes[x].vector, Adjacent(h, x, level)), o.maxConnections,
        Elements(Ranking(space, g, g.nodes[x].vector, Adjacent(g, x, level) + [id])))
    decreases |others|
  {
    hide IsTop, Closer, Connect, Layered, Adjacent, SameNodes, Linkable;
    var first, rest := others[0], others[1..];
    assert others == [first] + rest;
    LinkableSplit(g, id, level, others);
    ConnectEffect(space, o, g, id, level, first);
    var g1 := Connect(space, o, g, id, level, first);
    LinkableLater(g, g1, id, level, first, rest);
    LinkableIn(g, id, level, others, x);
    if x == first {
      ConnectKeepsClosest(space, o, g, id, level, first);
      ConnectAllEffect(space, o, g1, id, level, rest);
      assert Adjacent(ConnectAll(space, o, g1, id, level, rest), x, level) == Adjacent(g1, x, level);
    } else {
      ConnectAllKeepsClosest(space, o, g1, id, level, rest, x);
      assert Adjacent(g1, x, level) == Adjacent(g, x, level);
      RankingSameVectors(space, g, g1, x);
    }
  }

  lemma LinkableIn(g: Graph, id: Str, level: nat, others: seq<Str>, x: Str)
    requires Linkable(g, id, level, others) && x in others
    ensures x in g.nodes && x != id && id in g.nodes
  {
    assert OnLayer(g, x, level);
  }

  lemma RankingSameVectors(space: Space, g: Graph, h: Graph, x: Str)
    requires SameNodes(g, h) && x in g.nodes
    ensures h.nodes[x].vector == g.nodes[x].vector
    ensures forall list :: Ranking(space, h, g.nodes[x].vector, list) == Ranking(space, g, g.nodes[x].vector, list)
  {
    SameVectorsRank(space, g, h);
  }

  lemma ConnectKeepsClosest(space: Space, o: Options, g: Graph, id: Str, level: nat, x: Str)
    requires Linkable(g, id, level, [x])
    ensures var h := Connect(space, o, g, id, level, x);
      x in g.nodes && IsTop(Closer, Ranking(space, g, g.nodes[x].vector, Adjacent(h, x, level)), o.maxConnections,
        Elements(Ranking(space, g, g.nodes[x].vector, Adjacent(g, x, level) + [id])))
  {
    assert x in [x];
    assert OnLayer(g, x, level) && OnLayer(g, id, level);
    var list1 := Adjacent(g, id, level) + [x];
    var g1 := SetList(g, id, level, list1);
    SetListEffect(g, id, level, list1);
    var list2 := Adjacent(g, x, level) + [id];
    assert Distinct(list2);
    var v := g.nodes[x].vector;
    PrunedList(space, g1, v, list2, o.maxConnections);
    var kept := Pruned(space, g1, v, list2, o.maxConnections);
    SetListEffect(g1, x, level, kept);
    hide Pruned, IsTop, Closer;
    assert forall list :: Ranking(space, g1, v, list) == Ranking(space, g, v, list) by {
      RankingSameVectors(space, g, g1, x);
    }
  }

  // ---------------------------------------------------------------------------
  // A whole insertion

  lemma {:induction false} LinkLayersAbove(space: Space, o: Options, g: Graph, id: Str, v: Vec, entry: Str, layers: nat)
    requires Ready(o, g, id, entry, layers)
    ensures var h := LinkLayers(space, o, g, id, v, entry, layers);
      forall x, l: nat :: l >= layers ==> Adjacent(h, x, l) == Adjacent(g, x, l)
    decreases layers
  {
    if layers > 0 {
      var level := layers - 1;
      LayeredIsClosed(g, level);
      LinkedIsReady(space, o, g, id, v, entry, level);
      ChosenLinkable(space, o, g, id, v, entry, level);
      var chosen := Chosen(space, o, g, v, entry, level);
      var found := SearchLayer(space, g, v, [entry], o.efConstruction, level);
      ConnectAllEffect(space, o, g, id, level, chosen);
      hide ConnectAll, Chosen, Adjacent, Ready, Linkable, Layered, SearchLayer;
      LinkLayersAbove(space, o, ConnectAll(space, o, g, id, level, chosen), id, v, found[0].id, level);
    }
  }

  /** `g` is the graph `was` with `id` placed in it and nothing linked yet below layer `layers`. */
  ghost predicate Placed(was: Graph, g: Graph, id: Str, layers: nat) {
    && Layered(was) && id !in was.nodes && g.nodes.Keys == was.nodes.Keys + {id}
    && (forall x :: x in was.nodes ==>
          g.nodes[x].vector == was.nodes[x].vector && g.nodes[x].level == was.nodes[x].level)
    && (forall x, l: nat :: l < layers ==> Adjacent(g, x, l) == Adjacent(was, x, l))
  }

  /** The links of a new node on one layer: it lists the closest of what a search from `entry` found before, each of
      those keeps the closest of what it listed before and the new node, and no other list has changed. */
  ghost predicate LinkedAt(space: Space, o: Options, was: Graph, h: Graph, id: Str, v: Vec, entry: Str, level: nat) {
    && OnLayer(was, entry, level) && LayerClosed(was, level)
    && ClosestOf(space, was, v, Adjacent(h, id, level), o.maxConnections,
                 SearchLayer(space, was, v, [entry], o.efConstruction, level))
    && (forall x :: x in Adjacent(h, id, level) ==>
          x in was.nodes && ListKept(space, o, h, was.nodes[x].vector, Adjacent(h, x, level),
                                     Adjacent(was, x, level) + [id]))
    && (forall x :: x != id && x !in Adjacent(h, id, level) ==> Adjacent(h, x, level) == Adjacent(was, x, level))
  }

  ghost predicate ListKept(space: Space, o: Options, h: Graph, v: Vec, kept: seq<Str>, list: seq<Str>) {
    IsTop(Closer, Ranking(space, h, v, kept), o.maxConnections, Elements(Ranking(space, h, v, list)))
  }

  lemma PlacedSearch(space: Space, o: Options, was: Graph, g: Graph, id: Str, v: Vec, entry: Str, level: nat)
    requires Placed(was, g, id, level + 1) && LayerClosed(g, level) && entry in was.nodes
    ensures LayerClosed(was, level)
    ensures SearchLayer(space, g, v, [entry], o.efConstruction, level)
      == SearchLayer(space, was, v, [entry], o.efConstruction, level)
  {
    hide SearchLayer;
    LayeredIsClosed(was, level);
    SearchLayerSame(space, was, g, v, entry, o.efConstruction, level, was.nodes.Keys);
  }

  lemma LayerLinked(space: Space, o: Options, was: Graph, g: Graph, id: Str, v: Vec, entry: Str, level: nat)
    requires Ready(o, g, id, entry, level + 1) && Placed(was, g, id, level + 1) && LayerClosed(g, level)
    ensures var h := ConnectAll(space, o, g, id, level, Chosen(space, o, g, v, entry, level));
      LinkedAt(space, o, was, h, id, v, entry, level) && Placed(was, h, id, level) && SameNodes(g, h)
  {
    var chosen := Chosen(space, o, g, v, entry, level);
    var h := ConnectAll(space, o, g, id, level, chosen);
    assert ValidOptions(o) && OnLayer(was, entry, level) && entry in g.nodes;
    hide *;
    PlacedSearch(space, o, was, g, id, v, entry, level);
    ChosenAreClosest(space, o, g, v, entry, level);
    ChosenLinkable(space, o, g, id, v, entry, level);
    ConnectAllEffect(space, o, g, id, level, chosen);
    LinkedPlaced(was, g, h, id, level, chosen);
    BothEndsClosest(space, o, was, g, id, v, entry, level, chosen);
  }

  lemma LinkedPlaced(was: Graph, g: Graph, h: Graph, id: Str, level: nat, others: seq<Str>)
    requires Placed(was, g, id, level + 1) && Linked(g, h, id, level, others)
    ensures Placed(was, h, id, level) && SameNodes(g, h)
  {
    hide Adjacent, Layered;
  }

  lemma BothEndsClosest(space: Space, o: Options, was: Graph, g: Graph, id: Str, v: Vec, entry: Str, level: nat,
      chosen: seq<Str>)
    requires Placed(was, g, id, level + 1) && Linkable(g, id, level, chosen) && Unlinked(g, id, level)
    requires OnLayer(was, entry, level) && LayerClosed(was, level)
    requires ClosestOf(space, g, v, chosen, o.maxConnections,
                       SearchLayer(space, was, v, [entry], o.efConstruction, level))
    ensures LinkedAt(space, o, was, ConnectAll(space, o, g, id, level, chosen), id, v, entry, level)
  {
    hide ConnectAll, SearchLayer, IsTop, Closer, Layered, Linkable, Ranking;
    var h := ConnectAll(space, o, g, id, level, chosen);
    ConnectAllEffect(space, o, g, id, level, chosen);
    hide Adjacent;
    assert Adjacent(h, id, level) == chosen by { assert [] + chosen == chosen; }
    forall x | x in chosen
      ensures x in was.nodes && ListKept(space, o, h, was.nodes[x].vector, Adjacent(h, x, level),
                                         Adjacent(was, x, level) + [id])
    {
      BackLink(space, o, was, g, id, level, chosen, x);
    }
    RankingPlaced(space, was, g, id, v, chosen);
  }

  lemma BackLink(space: Space, o: Options, was: Graph, g: Graph, id: Str, level: nat, chosen: seq<Str>, x: Str)
    requires Placed(was, g, id, level + 1) && Linkable(g, id, level, chosen) && x in chosen
    ensures var h := ConnectAll(space, o, g, id, level, chosen);
      && x in was.nodes
      && ListKept(space, o, h, was.nodes[x].vector, Adjacent(h, x, level), Adjacent(was, x, level) + [id])
  {
    hide ConnectAll, IsTop, Closer, Layered, Linkable, Adjacent, Ranking;
    ConnectAllEffect(space, o, g, id, level, chosen);
    ConnectAllKeepsClosest(space, o, g, id, level, chosen, x);
    LinkableIn(g, id, level, chosen, x);
    SameVectorsRank(space, g, ConnectAll(space, o, g, id, level, chosen));
  }

  lemma RankingPlaced(space: Space, was: Graph, g: Graph, id: Str, v: Vec, list: seq<Str>)
    requires Placed(was, g, id, 0) && forall x :: x in list ==> x in was.nodes
    ensures Ranking(space, g, v, list) == Ranking(space, was, v, list)
  {
    var a, b := Ranking(space, g, v, list), Ranking(space, was, v, list);
    forall i | 0 <= i < |list| ensures a[i] == b[i] {
      assert list[i] in list;
    }
  }

  /** Later layers leave a finished one alone. */
  lemma LinkedStays(space: Space, o: Options, was: Graph, g: Graph, h: Graph, id: Str, v: Vec, entry: Str, level: nat)
    requires LinkedAt(space, o, was, g, id, v, entry, level) && SameVectors(g, h)
    requires forall x :: Adjacent(h, x, level) == Adjacent(g, x, level)
    ensures LinkedAt(space, o, was, h, id, v, entry, level)
  {
    hide SearchLayer, IsTop, Closer, SameVectors, LayerClosed, OnLayer, Adjacent;
    SameVectorsRank(space, g, h);
  }

  ghost predicate SameVectors(g: Graph, h: Graph) {
    g.nodes.Keys == h.nodes.Keys && forall x :: x in g.nodes ==> h.nodes[x].vector == g.nodes[x].vector
  }

  lemma SameNodesVectors(g: Graph, h: Graph)
    requires SameNodes(g, h)
    ensures SameVectors(g, h)
  {
  }

  lemma SameVectorsRank(space: Space, g: Graph, h: Graph)
    requires SameVectors(g, h)
    ensures forall w: Vec, list :: Ranking(space, h, w, list) == Ranking(space, g, w, list)
  {
    forall w: Vec, list ensures Ranking(space, h, w, list) == Ranking(space, g, w, list) {
      assert forall x :: At(space, h, w, x) == At(space, g, w, x);
    }
  }

  /** The entries used on layers `layers - 1` down to 0: each is the nearest node the layer above offered. */
  ghost predicate Steps(space: Space, o: Options, was: Graph, v: Vec, entries: seq<Str>) {
    forall l :: 0 < l < |entries| ==>
      LayerClosed(was, l) && NearestFound(space, o, was, v, entries[l], l, entries[l - 1])
  }

  ghost predicate NearestFound(space: Space, o: Options, was: Graph, v: Vec, entry: Str, level: nat, id: Str)
    requires LayerClosed(was, level)
  {
    var found := SearchLayer(space, was, v, [entry], o.efConstruction, level);
    found != [] && found[0].id == id
  }

  lemma StepUp(space: Space, o: Options, was: Graph, v: Vec, below: seq<Str>, entry: Str)
    requires Steps(space, o, was, v, below)
    requires below != [] ==>
      && LayerClosed(was, |below|)
      && NearestFound(space, o, was, v, entry, |below|, below[|below| - 1])
    ensures Steps(space, o, was, v, below + [entry])
  {
    hide NearestFound, LayerClosed;
  }

  lemma LinkStep(space: Space, o: Options, was: Graph, g: Graph, id: Str, v: Vec, entry: Str, level: nat)
      returns (g1: Graph, next: Str)
    requires Ready(o, g, id, entry, level + 1) && Placed(was, g, id, level + 1)
    ensures Ready(o, g1, id, next, level) && Placed(was, g1, id, level)
    ensures LinkLayers(space, o, g, id, v, entry, level + 1) == LinkLayers(space, o, g1, id, v, next, level)
    ensures LinkedAt(space, o, was, g1, id, v, entry, level)
    ensures LayerClosed(was, level) && NearestFound(space, o, was, v, entry, level, next)
  {
    assert Layered(g) && entry in was.nodes;
    hide Ready, Placed, LinkedAt, ConnectAll, Chosen, SearchLayer, Layered, LayerClosed;
    LayeredIsClosed(g, level);
    LinkedIsReady(space, o, g, id, v, entry, level);
    g1 := ConnectAll(space, o, g, id, level, Chosen(space, o, g, v, entry, level));
    next := SearchLayer(space, g, v, [entry], o.efConstruction, level)[0].id;
    LayerLinked(space, o, was, g, id, v, entry, level);
    PlacedSearch(space, o, was, g, id, v, entry, level);
  }

  lemma {:induction false} LinkLayersLinks(space: Space, o: Options, was: Graph, g: Graph, id: Str, v: Vec, entry: Str,
      layers: nat) returns (entries: seq<Str>)
    requires Ready(o, g, id, entry, layers) && Placed(was, g, id, layers)
    ensures |entries| == layers && (layers > 0 ==> entries[layers - 1] == entry)
    ensures Steps(space, o, was, v, entries)
    ensures var h := LinkLayers(space, o, g, id, v, entry, layers);
      forall l: nat :: l < layers ==> LinkedAt(space, o, was, h, id, v, entries[l], l)
    decreases layers
  {
    hide Ready, Placed, LinkedAt, LinkLayers, LayerClosed, NearestFound, Adjacent, SameNodes, SameVectors, Layered,
      Bounded;
    entries := [];
    if layers > 0 {
      var g1, next := LinkStep(space, o, was, g, id, v, entry, layers - 1);
      var below := LinkLayersLinks(space, o, was, g1, id, v, next, layers - 1);
      LinkLayersAbove(space, o, g1, id, v, next, layers - 1);
      LinkLayersEffect(space, o, g1, id, v, next, layers - 1);
      var h := LinkLayers(space, o, g1, id, v, next, layers - 1);
      SameNodesVectors(g1, h);
      LinkedStays(space, o, was, g1, h, id, v, entry, layers - 1);
      StepUp(space, o, was, v, below, entry);
      entries := below + [entry];
    }
  }

  /** A move on one layer: along its links, never further away, to a node that no neighbour there beats. */
  ghost predicate MovesTo(space: Space, g: Graph, v: Vec, level: nat, from: Str, to: Str) {
    && Reachable(g, level, [from], to)
    && (to == from || Closer(At(space, g, v, to), At(space, g, v, from)))
    && forall n :: n in Adjacent(g, to, level) ==> !Closer(At(space, g, v, n), At(space, g, v, to))
  }

  /** One move on each layer from `from` down to just above `to` leads from `entry` to `end`. */
  ghost predicate LeadsTo(space: Space, g: Graph, v: Vec, entry: Str, from: nat, to: nat, end: Str)
    decreases from
  {
    if from <= to then end == entry
    else exists next :: MovesTo(space, g, v, from, entry, next) && LeadsTo(space, g, v, next, from - 1, to, end)
  }

  lemma {:induction false} GreedyMoves(space: Space, g: Graph, v: Vec, start: Str, current: Str, level: nat)
    requires LayerClosed(g, level) && current in g.nodes && Reachable(g, level, [start], current)
    ensures Reachable(g, level, [start], Greedy(space, g, v, current, level))
    decreases |Nearer(space, g, v, current)|
  {
    hide Closer, Reachable;
    var next := Pass(space, g, v, current, Adjacent(g, current, level));
    if next != current {
      NearerShrinks(space, g, v, next, current);
      ReachableIsClosed(g, level, [start], current, next);
      GreedyMoves(space, g, v, start, next, level);
    }
  }

  lemma ReachesItself(g: Graph, level: nat, id: Str)
    ensures Reachable(g, level, [id], id)
  {
    assert IsPath(g, level, [id]);
  }

  lemma {:induction false} DescendLeads(space: Space, g: Graph, v: Vec, entry: Str, from: nat, to: nat)
    requires Layered(g) && OnLayer(g, entry, from)
    ensures LeadsTo(space, g, v, entry, from, to, Descend(space, g, v, entry, from, to))
    decreases from
  {
    hide Closer, Reachable, Greedy, MovesTo, Layered;
    if from > to {
      LayeredIsClosed(g, from);
      var next := Greedy(space, g, v, entry, from);
      GreedyMovesTo(space, g, v, entry, from);
      DescendLeads(space, g, v, next, from - 1, to);
    }
  }

  lemma GreedyMovesTo(space: Space, g: Graph, v: Vec, entry: Str, level: nat)
    requires Layered(g) && LayerClosed(g, level) && OnLayer(g, entry, level)
    ensures var next := Greedy(space, g, v, entry, level);
      MovesTo(space, g, v, level, entry, next) && OnLayer(g, next, level) && (level > 0 ==> OnLayer(g, next, level - 1))
  {
    hide Closer, Reachable, Nearer, Layered, LayerClosed;
    LayeredIsClosed(g, level);
    var layer := set id | id in g.nodes && OnLayer(g, id, level);
    GreedyStaysInside(space, g, v, entry, level, layer);
    ReachesItself(g, level, entry);
    GreedyMoves(space, g, v, entry, entry, level);
    assert Greedy(space, g, v, entry, level) in layer;
  }

  /** What an addition to a graph that already has nodes links, all in terms of the graph before it. Lists above the
      layers shared with the graph stay as they were, and the new node's are empty there. */
  lemma AddLinks(space: Space, o: Options, g: Graph, id: Str, v: Vec) returns (entries: seq<Str>)
    requires ValidOptions(o) && WellFormed(o, g) && id !in g.nodes && g.nodes != map[]
    ensures |entries| == Min(space.level(id), g.highest) + 1
    ensures LeadsTo(space, g, v, g.entry, g.highest, space.level(id), entries[|entries| - 1])
    ensures Steps(space, o, g, v, entries)
    ensures var h := Added(space, o, g, id, v);
      && (forall l: nat :: l < |entries| ==> LinkedAt(space, o, g, h, id, v, entries[l], l))
      && (forall x, l: nat :: l >= |entries| ==> Adjacent(h, x, l) == Adjacent(g, x, l))
  {
    var node := NewNode(space, id, v);
    hide LinkLayers, Ready, LinkedAt, Steps, Descend, LeadsTo, Closer, Bounded, IsTop;
    var entry := Descend(space, g, v, g.entry, g.highest, node.level);
    DescendLeads(space, g, v, g.entry, g.highest, node.level);
    var placed := g.(nodes := g.nodes[id := node]);
    PlacedIsReady(space, o, g, id, v, entry);
    var layers := Min(node.level, g.highest) + 1;
    PlacedAtFirst(space, g, id, v, layers);
    hide Adjacent, WellFormed, Placed, Layered;
    var linked := LinkLayers(space, o, placed, id, v, entry, layers);
    entries := LinkLayersLinks(space, o, g, placed, id, v, entry, layers);
    LinkLayersAbove(space, o, placed, id, v, entry, layers);
    var h := Added(space, o, g, id, v);
    SameNodesLists(linked, h);
    forall l: nat | l < |entries| ensures LinkedAt(space, o, g, h, id, v, entries[l], l) {
      LinkedStays(space, o, g, linked, h, id, v, entries[l], l);
    }
  }

  lemma PlacedAtFirst(space: Space, g: Graph, id: Str, v: Vec, layers: nat)
    requires Layered(g) && id !in g.nodes
    ensures Placed(g, g.(nodes := g.nodes[id := NewNode(space, id, v)]), id, layers)
    ensures forall x, l: nat :: Adjacent(g.(nodes := g.nodes[id := NewNode(space, id, v)]), x, l) == Adjacent(g, x, l)
  {
  }

  lemma SameNodesLists(g: Graph, h: Graph)
    requires g.nodes == h.nodes
    ensures SameVectors(g, h) && forall x, l: nat :: Adjacent(h, x, l) == Adjacent(g, x, l)
  {
  }

  /** A search as broad as the graph finds exactly the reachable nodes. */
  lemma FoundIsReached(space: Space, g: Graph, v: Vec, entry: Str, breadth: nat, level: nat)
    requires LayerClosed(g, level) && entry in g.nodes && |g.nodes| <= breadth && breadth > 0
    ensures Elements(SearchLayer(space, g, v, [entry], breadth, level))
      == Pool(space, g, v, set x | x in g.nodes && Reachable(g, level, [entry], x))
  {
    var found := SearchLayer(space, g, v, [entry], breadth, level);
    var reached := set x | x in g.nodes && Reachable(g, level, [entry], x);
    SearchLayerSound(space, g, v, [entry], breadth, level, g.nodes.Keys);
    hide SearchLayer, IsTop, Closer, Explore, Reachable, Seed, At, LayerClosed;
    forall x ensures x in Ids(found) <==> Reachable(g, level, [entry], x) {
      WideSearchIsReachability(space, g, v, [entry], breadth, level, x);
    }
    forall n ensures n in Elements(found) <==> n in Pool(space, g, v, reached) {
      FoundInPool(space, g, v, found, reached, n);
    }
  }

  lemma FoundInPool(space: Space, g: Graph, v: Vec, found: seq<Neighbor>, reached: set<Str>, n: Neighbor)
    requires forall x :: x in found ==> x == At(space, g, v, x.id)
    requires forall x :: x in Ids(found) <==> x in reached
    ensures n in Elements(found) <==> n in Pool(space, g, v, reached)
  {
    if n in found {
      var i :| 0 <= i < |found| && found[i] == n;
      assert Ids(found)[i] == n.id;
    }
    if n in Pool(space, g, v, reached) {
      var i :| 0 <= i < |found| && Ids(found)[i] == n.id;
      assert found[i] in found;
    }
  }

  /** With a construction breadth that covers the graph, a new node is linked on each layer to the closest of all the
      nodes that can be reached there. */
  lemma WideLinks(space: Space, o: Options, was: Graph, h: Graph, id: Str, v: Vec, entry: Str, level: nat)
    requires LinkedAt(space, o, was, h, id, v, entry, level) && ValidOptions(o) && |was.nodes| <= o.efConstruction
    ensures IsTop(Closer, Ranking(space, was, v, Adjacent(h, id, level)), o.maxConnections,
      Pool(space, was, v, set x | x in was.nodes && Reachable(was, level, [entry], x)))
  {
    hide SearchLayer, IsTop, Closer, Reachable, LayerClosed, Pool, Adjacent;
    FoundIsReached(space, was, v, entry, o.efConstruction, level);
  }

  /** What any search of a graph with nodes returns: the closest of what the search of layer 0 finds from the node the
      layers above lead to, which is everything reachable once the breadth covers the graph. */
  lemma SearchReturns(space: Space, o: Options, g: Graph, v: Vec, limit: nat) returns (start: Str)
    requires ValidOptions(o) && WellFormed(o, g) && g.nodes != map[]
    ensures start in g.nodes && LayerClosed(g, 0) && LeadsTo(space, g, v, g.entry, g.highest, 0, start)
    ensures var breadth := if o.efSearch < limit then limit else o.efSearch;
      var most := if limit > 0 then limit else o.efSearch;
      var r := HnswExact.Search(space, o, g, v, limit);
      && IsTop(Closer, r, most, Elements(SearchLayer(space, g, v, [start], breadth, 0)))
      && (|g.nodes| <= breadth ==>
            IsTop(Closer, r, most, Pool(space, g, v, set x | x in g.nodes && Reachable(g, 0, [start], x))))
  {
    LayeredIsClosed(g, 0);
    start := HnswExact.Start(space, g, v);
    DescendLeads(space, g, v, g.entry, g.highest, 0);
    var breadth := HnswExact.Max(o.efSearch, limit);
    var found := SearchLayer(space, g, v, [start], breadth, 0);
    SearchLayerSound(space, g, v, [start], breadth, 0, g.nodes.Keys);
    CloserTotal();
    hide SearchLayer, Closer, Reachable, LeadsTo, Explore, Seed, Descend, LayerClosed, WellFormed, Pool;
    PrefixIsTop(Closer, found, if limit > 0 then limit else o.efSearch);
    if |g.nodes| <= breadth {
      FoundIsReached(space, g, v, start, breadth, 0);
    }
    assert found[..|found|] == found;
  }
}
