/** The two mutable vector indexes behind one contract: exact comparison with everything, and a graph rebuilt after
    each change. */
module VectorIndexes {

  import opened Bytes
  import opened Ordering
  import opened Wrappers
  import opened Vectors
  import opened Hnsw
  import opened HnswBuild
  import opened HnswInsert
  import opened HnswExact
  import opened HnswObjects

  type Table = map<Str, Vec>

  /** Higher score first, ties by ID. */
  predicate Better(left: Result, right: Result) {
    if left.score == right.score then Less(left.id, right.id) else left.score > right.score
  }

  lemma BetterTotal()
    ensures TotalOrder(Better)
  {
    forall x: Result ensures !Better(x, x) { LessIrreflexive(x.id); }
    forall x: Result, y: Result, z: Result | Better(x, y) && Better(y, z) ensures Better(x, z) {
      if x.score == y.score == z.score { LessTransitive(x.id, y.id, z.id); }
    }
    forall x: Result, y: Result ensures x == y || Better(x, y) || Better(y, x) { LessConnected(x.id, y.id); }
  }

  // ---------------------------------------------------------------------------
  // Exact search

  ghost function Scores(space: Space, table: Table, query: Vec): set<Result> {
    set id | id in table :: Result(id, space.cosine(query, table[id]))
  }

  ghost function ExactResults(space: Space, table: Table, query: Vec, limit: nat): seq<Result> {
    var all := Sort(Better, Listing(Scores(space, table, query)));
    if limit > 0 && |all| > limit then all[..limit] else all
  }

  ghost function ExactOutcome(space: Space, table: Table, query: Vec, limit: int): Outcome<seq<Result>> {
    if limit < 0 then Err(NegativeLimit)
    else if space.normalize(query).None? then Err(InvalidVector)
    else Ok(ExactResults(space, table, space.normalize(query).value, limit))
  }

  class ExactIndex {
    const space: Space
    var vectors: Table

    constructor (space: Space)
      ensures this.space == space && vectors == map[]
    {
      this.space, vectors := space, map[];
    }

    method Upsert(rawId: Str, vector: Vec) returns (error: Option<Error>)
      modifies this
      ensures error.None? <==> space.trim(rawId) != [] && space.normalize(vector).Some?
      ensures vectors == Stored(space, old(vectors), Call.Upsert(rawId, vector))
    {
      var id := space.trim(rawId);
      if id == [] { return Some(IdRequired); }
      var normalized := space.normalize(vector);
      if normalized.None? { return Some(InvalidVector); }
      vectors := vectors[id := normalized.value];
      return None;
    }

    method Delete(rawId: Str) returns (existed: bool)
      modifies this
      ensures existed <==> space.trim(rawId) in old(vectors)
      ensures vectors == Stored(space, old(vectors), Call.Delete(rawId))
    {
      var id := space.trim(rawId);
      if id !in vectors {
        assert vectors - {id} == vectors;
        return false;
      }
      vectors := vectors - {id};
      return true;
    }

    method Search(query: Vec, limit: int) returns (r: Outcome<seq<Result>>)
      ensures r == ExactOutcome(space, vectors, query, limit)
    {
      if limit < 0 { return Err(NegativeLimit); }
      var normalized := space.normalize(query);
      if normalized.None? { return Err(InvalidVector); }
      var q := normalized.value;
      var results: seq<Result> := [];
      var pending := vectors.Keys;
      while pending != {}
        invariant pending <= vectors.Keys && Distinct(results)
        invariant Elements(results) == set id | id in vectors &&
          id !in pending :: Result(id, space.cosine(q, vectors[id]))
      {
        var id :| id in pending;
        var found := Result(id, space.cosine(q, vectors[id]));
        assert found !in Elements(results);
        ElementsSnoc(results, found);
        results := results + [found];
        pending := pending - {id};
      }
      BetterTotal();
      assert Elements(results) == Scores(space, vectors, q);
      SortStrictly(Better, results);
      SortStrictly(Better, Listing(Scores(space, vectors, q)));
      StrictListingUnique(Better, Sort(Better, results), Sort(Better, Listing(Scores(space, vectors, q))));
      results := Sort(Better, results);
      if limit > 0 && |results| > limit { results := results[..limit]; }
      return Ok(results);
    }
  }

  // ---------------------------------------------------------------------------
  // Histories

  datatype Call = Upsert(id: Str, vector: Vec) | Delete(id: Str)

  /** What one call does to the stored vectors. */
  function Stored(space: Space, table: Table, call: Call): Table {
    match call
    case Upsert(id, vector) =>
      if space.trim(id) != [] && space.normalize(vector).Some?
      then table[space.trim(id) := space.normalize(vector).value] else table
    case Delete(id) => table - {space.trim(id)}
  }

  function StoredAfter(space: Space, calls: seq<Call>): Table {
    if calls == [] then map[]
    else Stored(space, StoredAfter(space, calls[..|calls| - 1]), calls[|calls| - 1])
  }

  /** Every ID is trimmed and present, and every stored vector can be normalized again. */
  ghost predicate Storable(space: Space, table: Table) {
    forall id :: id in table ==> TrimmedId(space, id) && space.normalize(table[id]).Some?
  }

  predicate TrimmedId(space: Space, id: Str) {
    space.trim(id) == id && id != []
  }

  function ItemOf(space: Space, table: Table, id: Str): Item {
    Item(id, if id in table && space.normalize(table[id]).Some? then space.normalize(table[id]).value else [])
  }

  function ItemsFor(space: Space, table: Table, ids: seq<Str>): (r: seq<Item>)
    ensures |r| == |ids|
    ensures forall i :: 0 <= i < |ids| ==> r[i] == ItemOf(space, table, ids[i])
    ensures Distinct(ids) ==> DistinctIds(r)
  {
    seq(|ids|, i requires 0 <= i < |ids| => ItemOf(space, table, ids[i]))
  }

  lemma ItemIdsFor(space: Space, table: Table, ids: seq<Str>)
    ensures ItemIds(ItemsFor(space, table, ids)) == Elements(ids)
  {
    var items := ItemsFor(space, table, ids);
    forall id ensures id in ItemIds(items) <==> id in ids {
      if id in ids {
        var i :| 0 <= i < |ids| && ids[i] == id;
        assert items[i] in items;
      }
    }
  }

  /** The graph of a table: its items inserted in ascending order of ID. Nothing else about how the table came to be
      matters. */
  ghost function GraphOf(space: Space, o: Options, table: Table): (g: Graph)
    requires ValidOptions(o) && Storable(space, table)
    ensures WellFormed(o, g) && g.nodes.Keys == table.Keys
  {
    var ids := Ascending(table.Keys);
    LessTotal();
    StrictIsDistinct(Less, ids);
    ItemIdsFor(space, table, ids);
    Build(space, o, ItemsFor(space, table, ids))
  }

  class HnswIndex {
    const space: Space
    const options: Options
    var vectors: Table
    var graph: HnswObjects.Index

    ghost predicate Valid()
      reads this, graph
    {
      && ValidOptions(options) && TrimStable(space) && Storable(space, vectors)
      && graph.space == space && graph.options == options && graph.Valid()
      && graph.G() == GraphOf(space, options, vectors)
    }

    constructor (space: Space, options: Options)
      requires ValidOptions(options) && TrimStable(space)
      ensures Valid() && vectors == map[] && this.space == space && this.options == options
      ensures fresh(graph)
    {
      this.space, this.options, vectors := space, options, map[];
      graph := new HnswObjects.Index(space, options);
    }

    /** Inserts every vector in ascending order of ID into a new graph. */
    static method Rebuild(space: Space, options: Options, table: Table) returns (ok: bool, built: HnswObjects.Index)
      requires ValidOptions(options) && forall id :: id in table ==> TrimmedId(space, id)
      ensures fresh(built)
      ensures ok <==> Storable(space, table)
      ensures ok ==> built.space == space && built.options == options && built.Valid()
      ensures ok ==> built.G() == GraphOf(space, options, table)
    {
      hide Build, WellFormed, BuiltFrom, Added, GraphOf;
      built := new HnswObjects.Index(space, options);
      var ids := SortedKeys(table.Keys);
      EmptyBuild(space, options, table);
      for i := 0 to |ids|
        invariant fresh(built) && built.space == space && built.options == options && built.Valid()
        invariant BuiltFrom(space, options, table, ids[..i], built.G())
      {
        var id := ids[i];
        ghost var g := built.G();
        NextId(space, options, table, ids, i, g);
        assert TrimmedId(space, id);
        var error := built.Add(id, table[id]);
        if error.Some? {
          return false, built;
        }
        NextBuild(space, options, table, ids[..i], id, g);
        TakeNext(ids, i);
      }
      assert ids[..|ids|] == ids;
      AllBuilt(space, options, table, built.G());
      return true, built;
    }

    method Upsert(rawId: Str, vector: Vec) returns (error: Option<Error>)
      requires Valid()
      modifies this
      ensures Valid() && (graph == old(graph) || fresh(graph))
      ensures error.None? <==>
        space.trim(rawId) != [] && space.normalize(vector).Some? && space.normalize(space.normalize(vector).value).Some?
      ensures error.None? ==> vectors == Stored(space, old(vectors), Call.Upsert(rawId, vector))
      ensures error.Some? ==> vectors == old(vectors) && graph == old(graph) && graph.G() == old(graph.G())
    {
      hide WellFormed, GraphOf;
      var id := space.trim(rawId);
      if id == [] { return Some(IdRequired); }
      var normalized := space.normalize(vector);
      if normalized.None? { return Some(InvalidVector); }
      var next := vectors[id := normalized.value];
      assert TrimmedId(space, id);
      assert Storable(space, next) <==> space.normalize(normalized.value).Some? by {
        assert id in next && next[id] == normalized.value;
      }
      var ok, rebuilt := Rebuild(space, options, next);
      if !ok { return Some(InvalidVector); }
      vectors, graph := next, rebuilt;
      return None;
    }

    /** The rebuild after a deletion cannot fail: every remaining vector was accepted by an earlier rebuild. */
    method Delete(rawId: Str) returns (existed: bool)
      requires Valid()
      modifies this
      ensures Valid() && (graph == old(graph) || fresh(graph))
      ensures existed <==> space.trim(rawId) in old(vectors)
      ensures vectors == Stored(space, old(vectors), Call.Delete(rawId))
    {
      hide WellFormed, GraphOf;
      var id := space.trim(rawId);
      if id !in vectors {
        assert vectors - {id} == vectors;
        return false;
      }
      var next := vectors - {id};
      var ok, rebuilt := Rebuild(space, options, next);
      if !ok { return false; }
      vectors, graph := next, rebuilt;
      return true;
    }

    method Search(query: Vec, limit: int) returns (r: Outcome<seq<Result>>)
      requires Valid()
      ensures r == SearchOutcome(space, options, GraphOf(space, options, vectors), query, limit)
    {
      r := graph.Search(query, limit);
    }
  }

  /** `g` holds the items of `ids`, inserted in that order. */
  ghost predicate BuiltFrom(space: Space, o: Options, table: Table, ids: seq<Str>, g: Graph)
    requires ValidOptions(o)
  {
    && Distinct(ids) && (forall id :: id in ids ==> id in table && space.normalize(table[id]).Some?)
    && g == Build(space, o, ItemsFor(space, table, ids))
  }

  lemma EmptyBuild(space: Space, o: Options, table: Table)
    requires ValidOptions(o)
    ensures BuiltFrom(space, o, table, [], EMPTY_GRAPH)
  {
    assert ItemsFor(space, table, []) == [];
  }

  lemma AllBuilt(space: Space, o: Options, table: Table, g: Graph)
    requires ValidOptions(o) && BuiltFrom(space, o, table, Ascending(table.Keys), g)
    requires forall id :: id in table ==> TrimmedId(space, id)
    ensures Storable(space, table) && g == GraphOf(space, o, table)
  {
    hide Build, WellFormed;
    forall id | id in table ensures space.normalize(table[id]).Some? { assert id in Elements(Ascending(table.Keys)); }
  }

  lemma NextBuild(space: Space, o: Options, table: Table, ids: seq<Str>, id: Str, g: Graph)
    requires ValidOptions(o) && BuiltFrom(space, o, table, ids, g) && id !in ids
    requires id in table && space.normalize(table[id]).Some?
    ensures WellFormed(o, g) && g.nodes.Keys == Elements(ids)
    ensures BuiltFrom(space, o, table, ids + [id], Added(space, o, g, id, space.normalize(table[id]).value))
  {
    hide Added, WellFormed;
    var items, more := ItemsFor(space, table, ids), ItemsFor(space, table, ids + [id]);
    assert Distinct(ids + [id]);
    ItemIdsFor(space, table, ids);
    assert more[..|items|] == items;
    hide ItemIds;
    LastIsNew(more);
  }

  /** Where a rebuild stands before its i-th insertion, which fails only when the vector cannot be normalized. */
  lemma NextId(space: Space, o: Options, table: Table, ids: seq<Str>, i: nat, g: Graph)
    requires ValidOptions(o) && ids == Ascending(table.Keys) && i < |ids|
    requires BuiltFrom(space, o, table, ids[..i], g)
    ensures g.nodes.Keys == Elements(ids[..i]) && ids[i] in table && ids[i] !in ids[..i]
  {
    assert ids[i] in Elements(ids);
    LessTotal();
    StrictIsDistinct(Less, ids);
    hide Build, WellFormed;
    ItemIdsFor(space, table, ids[..i]);
  }

  // ---------------------------------------------------------------------------
  // Agreement

  /** Whatever order of calls led to a table, a search only ever returns IDs the table still holds, with their stored
      vectors' scores, each once and best first. */
  lemma ResultsAreStored(space: Space, o: Options, table: Table, query: Vec, limit: nat)
    requires ValidOptions(o) && Storable(space, table) && space.normalize(query).Some?
    ensures var r := SearchOutcome(space, o, GraphOf(space, o, table), query, limit);
      && r.Ok? && StrictlySorted(Better, r.value) && (limit > 0 ==> |r.value| <= limit)
      && (forall x :: x in r.value ==>
           x.id in table && x.score == space.cosine(space.normalize(query).value, space.normalize(table[x.id]).value))
  {
    hide GraphOf, Layered, Topped, Bounded, Search, Closer, Better;
    var g, q := GraphOf(space, o, table), space.normalize(query).value;
    var found := Search(space, o, g, q, limit);
    SearchSound(space, o, g, q, limit);
    CloserIsBetter(found);
    forall i | 0 <= i < |found| ensures found[i].id in table &&
      Scored(found[i]).score == space.cosine(q, space.normalize(table[found[i].id]).value)
    {
      assert found[i] in found;
      GraphHolds(space, o, table, found[i].id);
    }
  }

  lemma CloserIsBetter(ns: seq<Neighbor>)
    requires StrictlySorted(Closer, ns)
    ensures StrictlySorted(Better, ScoredAll(ns))
  {
  }

  /** The best neighbours of a pool are the best results of the scored pool. */
  lemma TopTransfers(ns: seq<Neighbor>, k: nat, pool: set<Neighbor>, scored: set<Result>)
    requires IsTop(Closer, ns, k, pool)
    requires scored == set n | n in pool :: Scored(n)
    ensures IsTop(Better, ScoredAll(ns), k, scored)
  {
    var r := ScoredAll(ns);
    CloserIsBetter(ns);
    ScoredCard(pool);
    forall x | x in r ensures x in scored {
      var i :| 0 <= i < |r| && r[i] == x;
      assert ns[i] in Elements(ns);
    }
    forall x, y | x in r && y in scored && y !in r ensures Better(x, y) {
      var i :| 0 <= i < |r| && r[i] == x;
      var n :| n in pool && Scored(n) == y;
      forall j | 0 <= j < |ns| ensures ns[j] != n {
        assert r[j] in r;
      }
      assert ns[i] in ns;
      assert Closer(ns[i], n);
    }
  }

  lemma {:induction false} ScoredCard(pool: set<Neighbor>)
    ensures |set n | n in pool :: Scored(n)| == |pool|
  {
    var scored := set n | n in pool :: Scored(n);
    if pool != {} {
      var x :| x in pool;
      ScoredCard(pool - {x});
      var rest := set n | n in pool - {x} :: Scored(n);
      assert Scored(x) !in rest;
      assert scored == rest + {Scored(x)};
    }
  }

  /** Every stored vector is its own normalization. */
  ghost predicate Normalized(space: Space, table: Table) {
    forall id :: id in table ==> TrimmedId(space, id) && space.normalize(table[id]) == Some(table[id])
  }

  lemma {:induction false} StoredIsNormalized(space: Space, calls: seq<Call>)
    requires Regular(space)
    ensures Normalized(space, StoredAfter(space, calls))
  {
    if calls != [] {
      StoredIsNormalized(space, calls[..|calls| - 1]);
    }
  }

  /** Each node of the graph carries the stored vector, normalized once more. */
  lemma GraphHolds(space: Space, o: Options, table: Table, id: Str)
    requires ValidOptions(o) && Storable(space, table) && id in table
    ensures id in GraphOf(space, o, table).nodes
    ensures GraphOf(space, o, table).nodes[id].vector == space.normalize(table[id]).value
  {
    hide Build, WellFormed, Less, Ascending;
    var ids := Ascending(table.Keys);
    AscendingDistinct(table.Keys);
    assert id in Elements(ids);
    var i :| 0 <= i < |ids| && ids[i] == id;
    BuildKeepsVectors(space, o, ItemsFor(space, table, ids), i);
  }

  /** In exact arithmetic the graph stores the same vectors as the table. */
  lemma GraphVectors(space: Space, o: Options, table: Table)
    requires ValidOptions(o) && Normalized(space, table)
    ensures Storable(space, table)
    ensures forall id :: id in table ==>
      id in GraphOf(space, o, table).nodes && GraphOf(space, o, table).nodes[id].vector == table[id]
  {
    hide GraphOf;
    forall id | id in table
      ensures id in GraphOf(space, o, table).nodes && GraphOf(space, o, table).nodes[id].vector == table[id]
    {
      GraphHolds(space, o, table, id);
    }
  }

  lemma PoolScores(space: Space, g: Graph, table: Table, query: Vec)
    requires forall id :: id in table ==> id in g.nodes && g.nodes[id].vector == table[id]
    ensures Scores(space, table, query) == set n | n in Pool(space, g, query, table.Keys) :: Scored(n)
  {
    forall id | id in table ensures Scored(At(space, g, query, id)) == Result(id, space.cosine(query, table[id])) {
    }
    forall x | x in Scores(space, table, query)
      ensures x in set n | n in Pool(space, g, query, table.Keys) :: Scored(n)
    {
      var id :| id in table && x == Result(id, space.cosine(query, table[id]));
      assert At(space, g, query, id) in Pool(space, g, query, table.Keys);
    }
  }

  /** Exact results are the best of all stored vectors. */
  lemma ExactIsTop(space: Space, table: Table, query: Vec, limit: nat)
    requires limit > 0
    ensures IsTop(Better, ExactResults(space, table, query, limit), limit, Scores(space, table, query))
  {
    BetterTotal();
    hide Better, Sort;
    TopOfSort(Better, Listing(Scores(space, table, query)), limit);
  }

  /** After the same calls, the graph index answers every query exactly as the index that compares with every vector,
      as long as it holds at most `maxConnections + 1` items and searches with a breadth of at least two; without a
      limit it answers with the best `efSearch`. */
  lemma GraphIndexAgreesWithExact(space: Space, o: Options, calls: seq<Call>, query: Vec, limit: int)
    requires ValidOptions(o) && Regular(space)
    requires |StoredAfter(space, calls)| <= o.maxConnections + 1
    requires Max(o.efSearch, if limit < 0 then 0 else limit) >= 2 || |StoredAfter(space, calls)| <= 1
    ensures var table := StoredAfter(space, calls);
      Storable(space, table) && WellFormed(o, GraphOf(space, o, table)) &&
      SearchOutcome(space, o, GraphOf(space, o, table), query, limit) ==
        ExactOutcome(space, table, query, if limit == 0 then o.efSearch else limit)
  {
    hide SearchOutcome, ExactOutcome, GraphOf, Regular, StoredAfter, WellFormed;
    StoredIsNormalized(space, calls);
    TableAgrees(space, o, StoredAfter(space, calls), query, limit);
  }

  lemma TableAgrees(space: Space, o: Options, table: Table, query: Vec, limit: int)
    requires ValidOptions(o) && Normalized(space, table) && |table| <= o.maxConnections + 1
    requires Max(o.efSearch, if limit < 0 then 0 else limit) >= 2 || |table| <= 1
    ensures Storable(space, table)
    ensures WellFormed(o, GraphOf(space, o, table)) &&
      SearchOutcome(space, o, GraphOf(space, o, table), query, limit) ==
      ExactOutcome(space, table, query, if limit == 0 then o.efSearch else limit)
  {
    hide Layered, Topped, Bounded, Search, ExactResults, GraphOf;
    assert Storable(space, table);
    if limit >= 0 && space.normalize(query).Some? {
      SmallTableAgrees(space, o, table, space.normalize(query).value, limit);
    }
  }

  lemma SmallTableAgrees(space: Space, o: Options, table: Table, q: Vec, limit: nat)
    requires ValidOptions(o) && Normalized(space, table) && Storable(space, table) && |table| <= o.maxConnections + 1
    requires Max(o.efSearch, limit) >= 2 || |table| <= 1
    ensures ScoredAll(Search(space, o, GraphOf(space, o, table), q, limit)) ==
      ExactResults(space, table, q, if limit == 0 then o.efSearch else limit)
  {
    var g := GraphOf(space, o, table);
    var k := if limit == 0 then o.efSearch else limit;
    SmallGraphIsTop(space, o, table, q, limit);
    GraphVectors(space, o, table);
    PoolScores(space, g, table, q);
    hide GraphOf, Search, ExactResults, WellFormed, Closer, Better, Pool, Scores;
    TopTransfers(Search(space, o, g, q, limit), k, Pool(space, g, q, table.Keys), Scores(space, table, q));
    ExactIsTop(space, table, q, k);
    BetterTotal();
    TopUnique(Better, ScoredAll(Search(space, o, g, q, limit)), ExactResults(space, table, q, k), k,
      Scores(space, table, q));
  }

  lemma SmallGraphIsTop(space: Space, o: Options, table: Table, q: Vec, limit: nat)
    requires ValidOptions(o) && Storable(space, table) && |table| <= o.maxConnections + 1
    requires Max(o.efSearch, limit) >= 2 || |table| <= 1
    ensures IsTop(Closer, Search(space, o, GraphOf(space, o, table), q, limit),
                  if limit > 0 then limit else o.efSearch, Pool(space, GraphOf(space, o, table), q, table.Keys))
  {
    var ids := Ascending(table.Keys);
    LessTotal();
    StrictIsDistinct(Less, ids);
    ItemIdsFor(space, table, ids);
    hide Build, WellFormed, Search, IsTop;
    SmallGraphsSearchExactly(space, o, ItemsFor(space, table, ids), q, limit);
  }
}
