/** Adding an item to the graph, and what every addition keeps. */
module HnswInsert {

  import opened Bytes
  import opened Ordering
  import opened Vectors
  import opened Hnsw
  import opened HnswBuild

  /** Greedy descent from layer `from` to just above layer `to`. */
  function Descend(space: Space, g: Graph, query: Vec, entry: Str, from: nat, to: nat): (r: Str)
    requires Layered(g) && OnLayer(g, entry, from)
    ensures OnLayer(g, r, Min(from, to))
    decreases from
  {
    if from <= to then entry
    else
      LayeredIsClosed(g, from);
      GreedyStaysInside(space, g, query, entry, from, set id | id in g.nodes && OnLayer(g, id, from));
      Descend(space, g, query, Greedy(space, g, query, entry, from), from - 1, to)
  }

  /** On a layer not yet reached, the new node has no links in either direction. */
  ghost predicate Unlinked(g: Graph, id: Str, level: nat) {
    Adjacent(g, id, level) == [] && forall x :: id !in Adjacent(g, x, level)
  }

  /** `id` is ready to be linked on layers `layers - 1` down to 0, searching from `entry`. */
  ghost predicate Ready(o: Options, g: Graph, id: Str, entry: Str, layers: nat) {
    && ValidOptions(o) && Layered(g) && Bounded(g, o.maxConnections)
    && entry != id && entry in g.nodes && id in g.nodes
    && (layers > 0 ==> OnLayer(g, id, layers - 1) && OnLayer(g, entry, layers - 1))
    && forall l :: 0 <= l < layers ==> Unlinked(g, id, l)
  }

  /** The nodes a new node is linked to on one layer: the closest found, up to the connection limit. */
  function Chosen(space: Space, o: Options, g: Graph, v: Vec, entry: Str, level: nat): seq<Str>
    requires LayerClosed(g, level)
  {
    var found := SearchLayer(space, g, v, [entry], o.efConstruction, level);
    Ids(found)[..Min(o.maxConnections, |found|)]
  }

  /** The search on a layer the new node is not linked on finds other nodes of that layer, each once. */
  lemma ChosenLinkable(space: Space, o: Options, g: Graph, id: Str, v: Vec, entry: Str, level: nat)
    requires Ready(o, g, id, entry, level + 1)
    ensures LayerClosed(g, level)
    ensures Linkable(g, id, level, Chosen(space, o, g, v, entry, level)) && Unlinked(g, id, level)
    ensures var found := SearchLayer(space, g, v, [entry], o.efConstruction, level);
      found != [] && found[0].id != id && OnLayer(g, found[0].id, level)
  {
    LayeredIsClosed(g, level);
    assert Unlinked(g, id, level);
    var region := set x | x in g.nodes && OnLayer(g, x, level) && x != id;
    assert ClosedRegion(g, level, region);
    SearchLayerSound(space, g, v, [entry], o.efConstruction, level, region);
    var found := SearchLayer(space, g, v, [entry], o.efConstruction, level);
    hide SearchLayer, Closer;
    assert found[0] in found;
    var chosen := Chosen(space, o, g, v, entry, level);
    CloserTotal();
    StrictIsDistinct(Closer, found);
    FoundDistinct(space, g, v, found);
    forall x | x in chosen ensures x in region {
      var i :| 0 <= i < |chosen| && chosen[i] == x;
      assert found[i] in found;
    }
  }

  lemma FoundDistinct(space: Space, g: Graph, v: Vec, found: seq<Neighbor>)
    requires Distinct(found) && forall n :: n in found ==> n == At(space, g, v, n.id)
    ensures Distinct(Ids(found))
  {
    forall i, j | 0 <= i < j < |found| ensures found[i].id != found[j].id {
      assert found[i] in found && found[j] in found;
    }
  }

  lemma ConnectAllBounded(space: Space, o: Options, g: Graph, id: Str, level: nat, others: seq<Str>)
    requires Linkable(g, id, level, others) && Bounded(g, o.maxConnections)
    requires Adjacent(g, id, level) == [] && |others| <= o.maxConnections
    ensures Bounded(ConnectAll(space, o, g, id, level, others), o.maxConnections)
  {
    ConnectAllEffect(space, o, g, id, level, others);
    var h := ConnectAll(space, o, g, id, level, others);
    forall x, l: nat ensures |Adjacent(h, x, l)| <= o.maxConnections {
      if l == level && x in others {
        ConnectAllLists(space, o, g, id, level, others, x);
      }
    }
  }

  lemma StillUnlinked(g: Graph, h: Graph, id: Str, level: nat, others: seq<Str>, l: nat)
    requires Linked(g, h, id, level, others) && Unlinked(g, id, l) && l != level
    ensures Unlinked(h, id, l)
  {
  }

  /** Linking one layer leaves the node ready for the layers below. */
  lemma LinkedIsReady(space: Space, o: Options, g: Graph, id: Str, v: Vec, entry: Str, level: nat)
    requires Ready(o, g, id, entry, level + 1) && LayerClosed(g, level)
    ensures var found := SearchLayer(space, g, v, [entry], o.efConstruction, level);
      found != [] && Ready(o, ConnectAll(space, o, g, id, level, Chosen(space, o, g, v, entry, level)), id,
        found[0].id, level)
  {
    ChosenLinkable(space, o, g, id, v, entry, level);
    var chosen := Chosen(space, o, g, v, entry, level);
    var h := ConnectAll(space, o, g, id, level, chosen);
    assert Unlinked(g, id, level);
    assert |chosen| <= o.maxConnections;
    hide ConnectAll, SearchLayer, Chosen, Linkable, Layered, Bounded;
    ConnectAllBounded(space, o, g, id, level, chosen);
    ConnectAllEffect(space, o, g, id, level, chosen);
    forall l | 0 <= l < level ensures Unlinked(h, id, l) {
      assert Unlinked(g, id, l);
      StillUnlinked(g, h, id, level, chosen, l);
    }
    hide Adjacent;
    assert SameNodes(g, h);
  }

  function LinkLayers(space: Space, o: Options, g: Graph, id: Str, v: Vec, entry: Str, layers: nat): Graph
    requires Ready(o, g, id, entry, layers)
    decreases layers
  {
    if layers == 0 then g
    else
      var level := layers - 1;
      LayeredIsClosed(g, level);
      LinkedIsReady(space, o, g, id, v, entry, level);
      var found := SearchLayer(space, g, v, [entry], o.efConstruction, level);
      var linked := ConnectAll(space, o, g, id, level, Chosen(space, o, g, v, entry, level));
      LinkLayers(space, o, linked, id, v, found[0].id, level)
  }

  lemma {:induction false} LinkLayersEffect(space: Space, o: Options, g: Graph, id: Str, v: Vec, entry: Str,
      layers: nat)
    requires Ready(o, g, id, entry, layers)
    ensures var h := LinkLayers(space, o, g, id, v, entry, layers);
      Layered(h) && Bounded(h, o.maxConnections) && SameNodes(g, h)
    decreases layers
  {
    if layers > 0 {
      var level := layers - 1;
      LayeredIsClosed(g, level);
      LinkedIsReady(space, o, g, id, v, entry, level);
      ChosenLinkable(space, o, g, id, v, entry, level);
      var chosen := Chosen(space, o, g, v, entry, level);
      var found := SearchLayer(space, g, v, [entry], o.efConstruction, level);
      ConnectAllEffect(space, o, g, id, level, chosen);
      hide ConnectAll, Ready, Linkable, SearchLayer, Layered, Bounded;
      LinkLayersEffect(space, o, ConnectAll(space, o, g, id, level, chosen), id, v, found[0].id, level);
    }
  }

  function NewNode(space: Space, id: Str, v: Vec): Node {
    Node(v, space.level(id), seq(space.level(id) + 1, _ => []))
  }

  /** The graph after `Add` of a new, normalized item. */
  function Added(space: Space, o: Options, g: Graph, id: Str, v: Vec): Graph
    requires ValidOptions(o) && WellFormed(o, g) && id !in g.nodes
  {
    var node := NewNode(space, id, v);
    if g.nodes == map[] then Graph(map[id := node], id, node.level)
    else
      var entry := Descend(space, g, v, g.entry, g.highest, node.level);
      var placed := g.(nodes := g.nodes[id := node]);
      PlacedIsReady(space, o, g, id, v, entry);
      var linked := LinkLayers(space, o, placed, id, v, entry, Min(node.level, g.highest) + 1);
      if node.level > g.highest then linked.(entry := id, highest := node.level) else linked
  }

  lemma PlacedIsReady(space: Space, o: Options, g: Graph, id: Str, v: Vec, entry: Str)
    requires ValidOptions(o) && WellFormed(o, g) && id !in g.nodes && g.nodes != map[]
    requires OnLayer(g, entry, Min(g.highest, space.level(id)))
    ensures Ready(o, g.(nodes := g.nodes[id := NewNode(space, id, v)]), id, entry, Min(space.level(id), g.highest) + 1)
  {
    var h := g.(nodes := g.nodes[id := NewNode(space, id, v)]);
    assert forall x, l: nat :: Adjacent(h, x, l) == Adjacent(g, x, l);
    assert forall x, l: nat :: OnLayer(g, x, l) ==> OnLayer(h, x, l);
    assert OnLayer(h, id, Min(space.level(id), g.highest));
    assert id in h.nodes;
    forall x, l: nat ensures id !in Adjacent(h, x, l) {
      assert id in Adjacent(g, x, l) ==> OnLayer(g, id, l);
    }
  }

  /** Every addition keeps the graph's shape: one list per layer, lists of other existing nodes that reach that layer,
      no repeats, at most `maxConnections` each, and an entry node on the highest layer in use. */
  lemma AddKeepsWellFormed(space: Space, o: Options, g: Graph, id: Str, v: Vec)
    requires ValidOptions(o) && WellFormed(o, g) && id !in g.nodes
    ensures WellFormed(o, Added(space, o, g, id, v))
    ensures Added(space, o, g, id, v).nodes.Keys == g.nodes.Keys + {id}
    ensures Added(space, o, g, id, v).nodes[id].vector == v
    ensures Added(space, o, g, id, v).nodes[id].level == space.level(id)
    ensures forall x :: x in g.nodes ==>
      && Added(space, o, g, id, v).nodes[x].vector == g.nodes[x].vector
      && Added(space, o, g, id, v).nodes[x].level == g.nodes[x].level
    ensures Added(space, o, g, id, v).entry
      == if g.nodes == map[] || space.level(id) > g.highest then id else g.entry
  {
    var node := NewNode(space, id, v);
    if g.nodes == map[] {
      var h := Added(space, o, g, id, v);
      assert forall x, l: nat :: Adjacent(h, x, l) == [];
    } else {
      var entry := Descend(space, g, v, g.entry, g.highest, node.level);
      var placed := g.(nodes := g.nodes[id := node]);
      PlacedIsReady(space, o, g, id, v, entry);
      var layers := Min(node.level, g.highest) + 1;
      LinkLayersEffect(space, o, placed, id, v, entry, layers);
      var linked := LinkLayers(space, o, placed, id, v, entry, layers);
      hide LinkLayers, Ready, Descend;
      ToppedAfter(g, linked, id, node);
      SameListsSameShape(linked, linked.(entry := id, highest := node.level), o.maxConnections);
    }
  }

  lemma SameListsSameShape(g: Graph, h: Graph, limit: nat)
    requires g.nodes == h.nodes && Layered(g) && Bounded(g, limit)
    ensures Layered(h) && Bounded(h, limit)
  {
    assert forall x, l: nat :: Adjacent(h, x, l) == Adjacent(g, x, l);
    assert forall x, l: nat :: OnLayer(h, x, l) == OnLayer(g, x, l);
  }

  lemma ToppedAfter(g: Graph, linked: Graph, id: Str, node: Node)
    requires Topped(g) && g.nodes != map[] && id !in g.nodes
    requires SameNodes(g.(nodes := g.nodes[id := node]), linked)
    ensures Topped(if node.level > g.highest then linked.(entry := id, highest := node.level) else linked)
  {
    var placed := g.(nodes := g.nodes[id := node]);
    forall x | x in linked.nodes
      ensures linked.nodes[x].level == (if x == id then node.level else g.nodes[x].level) && (x == id || x in g.nodes) {
      assert x in placed.nodes;
    }
    assert g.entry in placed.nodes && id in placed.nodes;
  }
}
