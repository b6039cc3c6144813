/** Insertion into the layered graph: descent, linking, pruning, and the shape every insertion keeps. */
module HnswBuild {

  import opened Bytes
  import opened Ordering
  import opened Vectors
  import opened Hnsw

  datatype Options = Options(maxConnections: nat, efConstruction: nat, efSearch: nat)

  predicate ValidOptions(o: Options) {
    2 <= o.maxConnections <= o.efConstruction && 1 <= o.efSearch
  }

  // ---------------------------------------------------------------------------
  // Neighbour lists

  predicate HasList(g: Graph, id: Str, level: nat) {
    id in g.nodes && level < |g.nodes[id].neighbors|
  }

  function SetList(g: Graph, id: Str, level: nat, list: seq<Str>): Graph {
    if HasList(g, id, level)
    then g.(nodes := g.nodes[id := g.nodes[id].(neighbors := g.nodes[id].neighbors[level := list])])
    else g
  }

  function Ranking(space: Space, g: Graph, v: Vec, list: seq<Str>): (r: seq<Neighbor>)
    ensures |r| == |list|
    ensures forall i :: 0 <= i < |r| ==> r[i] == At(space, g, v, list[i])
  {
    seq(|list|, i requires 0 <= i < |list| => At(space, g, v, list[i]))
  }

  /** The closest `limit` of a neighbour list, in order. */
  function Pruned(space: Space, g: Graph, v: Vec, list: seq<Str>, limit: nat): seq<Str> {
    var ranked := Ids(Sort(Closer, Ranking(space, g, v, list)));
    if |ranked| > limit then ranked[..limit] else ranked
  }

  lemma RankingDistinct(space: Space, g: Graph, v: Vec, list: seq<Str>)
    requires Distinct(list)
    ensures Distinct(Ranking(space, g, v, list))
  {
    var ranking := Ranking(space, g, v, list);
    forall i, j | 0 <= i < j < |ranking| ensures ranking[i] != ranking[j] {
      assert ranking[i].id != ranking[j].id;
    }
  }

  /** A ranking names the nodes of its list, each as the query sees it. */
  lemma SortedRanking(space: Space, g: Graph, v: Vec, list: seq<Str>)
    requires Distinct(list)
    ensures var sorted := Sort(Closer, Ranking(space, g, v, list));
      && Distinct(Ids(sorted))
      && (forall i :: 0 <= i < |sorted| ==> sorted[i].id in list && sorted[i] == At(space, g, v, sorted[i].id))
      && (forall x :: x in list ==> x in Ids(sorted))
  {
    hide Sort, Closer;
    CloserTotal();
    RankingDistinct(space, g, v, list);
    var ranking, sorted := Ranking(space, g, v, list), Sort(Closer, Ranking(space, g, v, list));
    SortStrictly(Closer, ranking);
    StrictIsDistinct(Closer, sorted);
    forall i | 0 <= i < |sorted| ensures sorted[i].id in list && sorted[i] == At(space, g, v, sorted[i].id) {
      assert sorted[i] in Elements(sorted);
      var j :| 0 <= j < |ranking| && ranking[j] == sorted[i];
    }
    forall x | x in list ensures x in Ids(sorted) {
      var j :| 0 <= j < |list| && list[j] == x;
      assert ranking[j] in Elements(sorted);
      var i :| 0 <= i < |sorted| && sorted[i] == ranking[j];
      assert Ids(sorted)[i] == x;
    }
  }

  /** Pruning keeps the nearest of a list, each once and in order. */
  lemma PrunedList(space: Space, g: Graph, v: Vec, list: seq<Str>, limit: nat)
    requires Distinct(list)
    ensures var r := Pruned(space, g, v, list, limit);
      && Distinct(r) && |r| == Min(limit, |list|)
      && (forall x :: x in r ==> x in list)
      && (|list| <= limit ==> forall x :: x in list ==> x in r)
      && IsTop(Closer, Ranking(space, g, v, r), limit, Elements(Ranking(space, g, v, list)))
  {
    hide Sort, Closer, IsTop;
    SortedRanking(space, g, v, list);
    CloserTotal();
    RankingDistinct(space, g, v, list);
    var ranking := Ranking(space, g, v, list);
    TopOfSort(Closer, ranking, limit);
    assert Ranking(space, g, v, Pruned(space, g, v, list, limit)) == Sort(Closer, ranking)[..Min(limit, |ranking|)];
  }

  // ---------------------------------------------------------------------------
  // The shape of a graph

  /** Each node has one list per layer it is on; a list names other nodes that reach up to its layer, each once. */
  ghost predicate Layered(g: Graph) {
    && (forall id :: id in g.nodes ==> |g.nodes[id].neighbors| == g.nodes[id].level + 1)
    && (forall id, l: nat, n :: n in Adjacent(g, id, l) ==> n != id && OnLayer(g, n, l))
    && (forall id, l: nat :: Distinct(Adjacent(g, id, l)))
  }

  predicate OnLayer(g: Graph, id: Str, level: nat) {
    id in g.nodes && level <= g.nodes[id].level
  }

  ghost predicate Bounded(g: Graph, limit: nat) {
    forall id, l: nat :: |Adjacent(g, id, l)| <= limit
  }

  /** The entry node is on the highest layer, and no node is above it. */
  ghost predicate Topped(g: Graph) {
    g.nodes != map[] ==>
      && g.entry in g.nodes && g.nodes[g.entry].level == g.highest
      && forall id :: id in g.nodes ==> g.nodes[id].level <= g.highest
  }

  ghost predicate WellFormed(o: Options, g: Graph) {
    Layered(g) && Bounded(g, o.maxConnections) && Topped(g)
  }

  lemma LayeredIsClosed(g: Graph, level: nat)
    requires Layered(g)
    ensures LayerClosed(g, level)
    ensures ClosedRegion(g, level, set id | id in g.nodes && OnLayer(g, id, level))
  {
  }

  /** Same nodes, vectors, levels and entry: only lists may differ. */
  ghost predicate SameNodes(g: Graph, h: Graph) {
    && g.nodes.Keys == h.nodes.Keys && g.entry == h.entry && g.highest == h.highest
    && forall id :: id in g.nodes ==> g.nodes[id].vector == h.nodes[id].vector && g.nodes[id].level == h.nodes[id].level
  }

  lemma SetListEffect(g: Graph, id: Str, level: nat, list: seq<Str>)
    requires Layered(g) && OnLayer(g, id, level)
    ensures SameNodes(g, SetList(g, id, level, list))
    ensures forall x, l: nat :: Adjacent(SetList(g, id, level, list), x, l) == if x == id &&
      l == level then list else Adjacent(g, x, l)
    ensures forall x :: x in g.nodes ==> |SetList(g, id, level, list).nodes[x].neighbors| == g.nodes[x].level + 1
  {
  }

  lemma SetListKeepsLayered(g: Graph, id: Str, level: nat, list: seq<Str>)
    requires Layered(g) && OnLayer(g, id, level)
    requires Distinct(list) && forall n :: n in list ==> n != id && OnLayer(g, n, level)
    ensures Layered(SetList(g, id, level, list))
  {
    SetListEffect(g, id, level, list);
  }

  // ---------------------------------------------------------------------------
  // Linking a new node

  /** Links `id` and `other` on a layer, pruning the older node's list. */
  function Connect(space: Space, o: Options, g: Graph, id: Str, level: nat, other: Str): Graph {
    var g1 := SetList(g, id, level, Adjacent(g, id, level) + [other]);
    var list := Adjacent(g1, other, level) + [id];
    SetList(g1, other, level,
            if other in g1.nodes then Pruned(space, g1, g1.nodes[other].vector, list, o.maxConnections) else list)
  }

  function ConnectAll(space: Space, o: Options, g: Graph, id: Str, level: nat, others: seq<Str>): Graph
    decreases |others|
  {
    if others == [] then g
    else ConnectAll(space, o, Connect(space, o, g, id, level, others[0]), id, level, others[1..])
  }

  /** `id` may be linked on `level` to each of `others`, in any order. */
  ghost predicate Linkable(g: Graph, id: Str, level: nat, others: seq<Str>) {
    && Layered(g) && OnLayer(g, id, level) && Distinct(others)
    && forall x :: x in others ==>
         x != id && OnLayer(g, x, level) && x !in Adjacent(g, id, level) && id !in Adjacent(g, x, level)
  }

  /** `h` is `g` with `id` linked to `others`: the nodes are the same, `id` lists the others after what it listed, and
      no list outside this layer, or of a node not involved, has changed. */
  ghost predicate Linked(g: Graph, h: Graph, id: Str, level: nat, others: seq<Str>) {
    && Layered(h) && SameNodes(g, h)
    && Adjacent(h, id, level) == Adjacent(g, id, level) + others
    && (forall x, l: nat :: (l != level || (x != id && x !in others)) ==> Adjacent(h, x, l) == Adjacent(g, x, l))
  }

  /** The list of a linked node keeps to the limit, and loses nothing while it has room. */
  ghost predicate LinkedList(o: Options, g: Graph, h: Graph, id: Str, level: nat, x: Str) {
    && |Adjacent(h, x, level)| == Min(o.maxConnections, |Adjacent(g, x, level)| + 1)
    && (|Adjacent(g, x, level)| < o.maxConnections ==>
          id in Adjacent(h, x, level) && forall y :: y in Adjacent(g, x, level) ==> y in Adjacent(h, x, level))
  }

  lemma ConnectEffect(space: Space, o: Options, g: Graph, id: Str, level: nat, other: Str)
    requires Linkable(g, id, level, [other])
    ensures Linked(g, Connect(space, o, g, id, level, other), id, level, [other])
    ensures LinkedList(o, g, Connect(space, o, g, id, level, other), id, level, other)
  {
    hide Pruned, IsTop, Closer, Ranking;
    assert other in [other];
    var list1 := Adjacent(g, id, level) + [other];
    var g1 := SetList(g, id, level, list1);
    SetListEffect(g, id, level, list1);
    SetListKeepsLayered(g, id, level, list1);
    var list2 := Adjacent(g1, other, level) + [id];
    assert Distinct(list2);
    PrunedList(space, g1, g1.nodes[other].vector, list2, o.maxConnections);
    var list3 := Pruned(space, g1, g1.nodes[other].vector, list2, o.maxConnections);
    SetListEffect(g1, other, level, list3);
    SetListKeepsLayered(g1, other, level, list3);
  }

  lemma LinkedInTurn(g: Graph, g1: Graph, h: Graph, id: Str, level: nat, first: Str, rest: seq<Str>)
    requires Linked(g, g1, id, level, [first]) && Linked(g1, h, id, level, rest)
    ensures Linked(g, h, id, level, [first] + rest)
  {
    hide Adjacent, Layered, OnLayer;
    assert Adjacent(g, id, level) + ([first] + rest) == Adjacent(g, id, level) + [first] + rest;
    forall x, l: nat | l != level || (x != id && x !in [first] + rest) ensures Adjacent(h, x, l) == Adjacent(g, x, l) {
      assert x !in [first] + rest ==> x !in [first] && x !in rest;
    }
  }

  lemma {:induction false} ConnectAllEffect(space: Space, o: Options, g: Graph, id: Str, level: nat, others: seq<Str>)
    requires Linkable(g, id, level, others)
    ensures Linked(g, ConnectAll(space, o, g, id, level, others), id, level, others)
    decreases |others|
  {
    if others == [] {
      assert Adjacent(g, id, level) + others == Adjacent(g, id, level);
    } else {
      var first, rest := others[0], others[1..];
      assert others == [first] + rest;
      LinkableSplit(g, id, level, others);
      ConnectEffect(space, o, g, id, level, first);
      var g1 := Connect(space, o, g, id, level, first);
      LinkableLater(g, g1, id, level, first, rest);
      hide Linked, Linkable, LinkedList, Connect;
      ConnectAllEffect(space, o, g1, id, level, rest);
      LinkedInTurn(g, g1, ConnectAll(space, o, g1, id, level, rest), id, level, first, rest);
    }
  }

  lemma {:induction false} ConnectAllLists(space: Space, o: Options, g: Graph, id: Str, level: nat, others: seq<Str>,
      x: Str)
    requires Linkable(g, id, level, others) && x in others
    ensures LinkedList(o, g, ConnectAll(space, o, g, id, level, others), id, level, x)
    decreases |others|
  {
    var first, rest := others[0], others[1..];
    assert others == [first] + rest;
    LinkableSplit(g, id, level, others);
    ConnectEffect(space, o, g, id, level, first);
    var g1 := Connect(space, o, g, id, level, first);
    LinkableLater(g, g1, id, level, first, rest);
    assert x != id;
    hide Linkable, Connect, Layered, Adjacent, SameNodes;
    if x == first {
      ConnectAllEffect(space, o, g1, id, level, rest);
    } else {
      ConnectAllLists(space, o, g1, id, level, rest, x);
    }
  }

  lemma LinkableSplit(g: Graph, id: Str, level: nat, others: seq<Str>)
    requires Linkable(g, id, level, others) && others != []
    ensures Linkable(g, id, level, [others[0]]) && Linkable(g, id, level, others[1..])
    ensures others[0] !in others[1..]
  {
    assert others[0] in others;
  }

  lemma LinkableLater(g: Graph, h: Graph, id: Str, level: nat, first: Str, rest: seq<Str>)
    requires Linkable(g, id, level, rest) && first !in rest
    requires Linked(g, h, id, level, [first])
    ensures Linkable(h, id, level, rest)
  {
    hide Adjacent, Layered;
    forall x | x in rest ensures OnLayer(h, x, level) && x !in Adjacent(h, id, level) && id !in Adjacent(h, x, level) {
      assert OnLayer(g, x, level);
      assert x !in [first];
    }
    assert OnLayer(h, id, level);
  }
}
