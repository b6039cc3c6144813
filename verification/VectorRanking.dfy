/** The order of vector search results, and what a history of calls stores, said outright. */
module VectorRanking {

  import opened Bytes
  import opened Ordering
  import opened Wrappers
  import opened Vectors
  import opened Hnsw
  import opened HnswBuild
  import opened HnswInsert
  import opened HnswExact
  import opened HnswObjects
  import opened VectorIndexes

  /** The nearest of a pool come in order of distance, ties by ID, and nothing nearer is left out. */
  lemma NearestFirst(r: seq<Neighbor>, limit: nat, pool: set<Neighbor>)
    requires IsTop(Closer, r, limit, pool)
    ensures forall i, j :: 0 <= i < j < |r| ==>
      r[i].distance < r[j].distance || (r[i].distance == r[j].distance && Less(r[i].id, r[j].id))
    ensures forall i, n :: 0 <= i < |r| && n in pool && n !in r ==>
      r[i].distance < n.distance || (r[i].distance == n.distance && Less(r[i].id, n.id))
  {
    hide Less;
    forall i, n | 0 <= i < |r| && n in pool && n !in r
      ensures r[i].distance < n.distance || (r[i].distance == n.distance && Less(r[i].id, n.id))
    {
      assert r[i] in r;
      assert Closer(r[i], n);
    }
  }

  ghost predicate Ahead(score: real, id: Str, other: real, second: Str) {
    score > other || (score == other && Less(id, second))
  }

  /** Exact search lists stored vectors by falling cosine with ties by ID, as many as the limit allows and all of them
      without one, and leaves out none that belongs before one listed. */
  lemma ExactRanks(space: Space, table: Table, query: Vec, limit: nat)
    ensures var r := ExactResults(space, table, query, limit);
      && |r| == (if limit > 0 then Min(limit, |table|) else |table|)
      && (forall i :: 0 <= i < |r| ==> r[i].id in table && r[i].score == space.cosine(query, table[r[i].id]))
      && (forall i, j :: 0 <= i < j < |r| ==> Ahead(r[i].score, r[i].id, r[j].score, r[j].id))
      && (forall id, i :: id in table && 0 <= i < |r| && (forall j :: 0 <= j < |r| ==> r[j].id != id) ==>
            Ahead(r[i].score, r[i].id, space.cosine(query, table[id]), id))
  {
    hide ExactResults, IsTop, Ahead, Scores;
    var k := if limit > 0 then limit else |table|;
    ExactTop(space, table, query, limit);
    ScoresSize(space, table, query, table.Keys);
    TopScores(space, table, query, ExactResults(space, table, query, limit), k);
  }

  lemma ExactTop(space: Space, table: Table, query: Vec, limit: nat)
    ensures IsTop(Better, ExactResults(space, table, query, limit), if limit > 0 then limit else |table|,
                  Scores(space, table, query))
  {
    hide Better, Sort, Scores, IsTop;
    ScoresSize(space, table, query, table.Keys);
    BetterTotal();
    var all := Listing(Scores(space, table, query));
    TopOfSort(Better, all, if limit > 0 then limit else |table|);
    assert Sort(Better, all)[..|all|] == Sort(Better, all);
  }

  lemma TopScores(space: Space, table: Table, query: Vec, r: seq<Result>, k: nat)
    requires IsTop(Better, r, k, Scores(space, table, query))
    ensures |r| == Min(k, |Scores(space, table, query)|)
    ensures forall i :: 0 <= i < |r| ==> r[i].id in table && r[i].score == space.cosine(query, table[r[i].id])
    ensures forall i, j :: 0 <= i < j < |r| ==> Ahead(r[i].score, r[i].id, r[j].score, r[j].id)
    ensures forall id, i :: id in table && 0 <= i < |r| && (forall j :: 0 <= j < |r| ==> r[j].id != id) ==>
      Ahead(r[i].score, r[i].id, space.cosine(query, table[id]), id)
  {
    hide Less;
    forall i | 0 <= i < |r| ensures r[i].id in table && r[i].score == space.cosine(query, table[r[i].id]) {
      assert r[i] in Elements(r);
    }
    forall id, i | id in table && 0 <= i < |r| && (forall j :: 0 <= j < |r| ==> r[j].id != id)
      ensures Ahead(r[i].score, r[i].id, space.cosine(query, table[id]), id)
    {
      var y := Result(id, space.cosine(query, table[id]));
      assert y in Scores(space, table, query) && y !in r && r[i] in r;
      assert Better(r[i], y);
    }
  }

  ghost function SomeScores(space: Space, table: Table, query: Vec, ids: set<Str>): set<Result>
    requires ids <= table.Keys
  {
    set id | id in ids :: Result(id, space.cosine(query, table[id]))
  }

  lemma {:induction false} ScoresSize(space: Space, table: Table, query: Vec, ids: set<Str>)
    requires ids <= table.Keys
    ensures |SomeScores(space, table, query, ids)| == |ids|
    ensures ids == table.Keys ==> |Scores(space, table, query)| == |table|
  {
    if ids != {} {
      var id :| id in ids;
      ScoresSize(space, table, query, ids - {id});
      assert SomeScores(space, table, query, ids) ==
        SomeScores(space, table, query, ids - {id}) + {Result(id, space.cosine(query, table[id]))};
    }
    assert ids == table.Keys ==> Scores(space, table, query) == SomeScores(space, table, query, ids);
  }

  /** When a search of either index is refused, and with what. */
  lemma SearchErrors(space: Space, o: Options, g: Graph, table: Table, query: Vec, limit: int)
    requires Layered(g) && Topped(g)
    ensures ExactOutcome(space, table, query, limit).Ok? <==> limit >= 0 && space.normalize(query).Some?
    ensures SearchOutcome(space, o, g, query, limit).Ok? <==> limit >= 0 && space.normalize(query).Some?
    ensures limit < 0 ==>
      ExactOutcome(space, table, query, limit) == SearchOutcome(space, o, g, query, limit) == Err(NegativeLimit)
    ensures limit >= 0 && space.normalize(query).None? ==>
      ExactOutcome(space, table, query, limit) == SearchOutcome(space, o, g, query, limit) == Err(InvalidVector)
  {
  }

  /** When an item is added to a graph: it has an ID once trimmed, its vector can be normalized, and the ID is new. */
  lemma AddedIff(space: Space, g: Graph, rawId: Str, vector: Vec)
    ensures AddError(space, g, rawId, vector).None? <==>
      space.trim(rawId) != [] && space.normalize(vector).Some? && space.trim(rawId) !in g.nodes
  {
  }

  // ---------------------------------------------------------------------------
  // Histories

  /** The call has an effect on this ID: a deletion of it, or an upsert of a vector that can be normalized. */
  predicate Touches(space: Space, call: Call, id: Str) {
    space.trim(call.id) == id && (call.Delete? || (id != [] && space.normalize(call.vector).Some?))
  }

  /** The k-th call is the last to touch the ID. */
  ghost predicate LastTouch(space: Space, calls: seq<Call>, id: Str, k: nat) {
    k < |calls| && Touches(space, calls[k], id) && forall j :: k < j < |calls| ==> !Touches(space, calls[j], id)
  }

  /** After any calls, an ID that some call touched is stored exactly when the last such call was an upsert, with that
      vector normalized. */
  lemma {:induction false} StoredIsLastTouch(space: Space, calls: seq<Call>, id: Str, k: nat)
    requires LastTouch(space, calls, id, k)
    ensures var table := StoredAfter(space, calls);
      && (id in table <==> calls[k].Upsert?)
      && (id in table ==> Some(table[id]) == space.normalize(calls[k].vector))
    decreases |calls|
  {
    var n := |calls| - 1;
    if k < n {
      assert !Touches(space, calls[n], id);
      assert forall j :: 0 <= j < n ==> calls[..n][j] == calls[j];
      StoredIsLastTouch(space, calls[..n], id, k);
    }
  }

  /** An ID that no call touched is not stored. */
  lemma {:induction false} UntouchedIsAbsent(space: Space, calls: seq<Call>, id: Str)
    requires forall j :: 0 <= j < |calls| ==> !Touches(space, calls[j], id)
    ensures id !in StoredAfter(space, calls)
  {
    if calls != [] {
      assert !Touches(space, calls[|calls| - 1], id);
      UntouchedIsAbsent(space, calls[..|calls| - 1], id);
    }
  }

  /** A rebuild inserts in ascending order of ID: the largest ID is added last, to the graph of the others. */
  lemma RebuildAddsLargestLast(space: Space, o: Options, table: Table, id: Str, v: Vec)
    requires ValidOptions(o) && Storable(space, table[id := v]) && forall x :: x in table ==> Less(x, id)
    ensures Storable(space, table) && id !in table && space.normalize(v).Some?
    ensures GraphOf(space, o, table[id := v]) ==
      Added(space, o, GraphOf(space, o, table), id, space.normalize(v).value)
  {
    hide Less, Added, WellFormed, GraphOf, Build, Ascending, Storable, StrictlySorted, Elements;
    LargestIsNew(table, id);
    FewerStorable(space, table, id, v);
    var ids, more := Ascending(table.Keys), table[id := v];
    AscendingWithLargest(table.Keys, id);
    assert more.Keys == table.Keys + {id};
    ItemsWithLargest(space, table, ids, id, v);
    var last := ItemOf(space, more, id);
    GraphIs(space, o, table);
    GraphIs(space, o, more);
    assert TrimmedId(space, id) && space.normalize(v).Some? by { LastStorable(space, more, id); }
    BuildAddsLast(space, o, ItemsFor(space, table, ids), last);
  }

  lemma LargestIsNew(table: Table, id: Str)
    requires forall x :: x in table ==> Less(x, id)
    ensures id !in table
  {
    LessTotal();
    hide Less;
  }

  lemma LastStorable(space: Space, table: Table, id: Str)
    requires Storable(space, table) && id in table
    ensures TrimmedId(space, id) && space.normalize(table[id]).Some?
  {
  }

  lemma GraphIs(space: Space, o: Options, table: Table)
    requires ValidOptions(o) && Storable(space, table)
    ensures var items := ItemsFor(space, table, Ascending(table.Keys));
      DistinctIds(items) && GraphOf(space, o, table) == Build(space, o, items)
  {
    hide Build, WellFormed, ItemIds, Less;
    AscendingDistinct(table.Keys);
  }

  lemma BuildAddsLast(space: Space, o: Options, items: seq<Item>, item: Item)
    requires ValidOptions(o) && DistinctIds(items) && DistinctIds(items + [item])
    ensures item.id !in Build(space, o, items).nodes
    ensures Build(space, o, items + [item]) == Added(space, o, Build(space, o, items), item.id, item.vector)
  {
    hide WellFormed, Added;
    var all := items + [item];
    assert all[..|all| - 1] == items;
    LastIsNew(all);
  }

  lemma FewerStorable(space: Space, table: Table, id: Str, v: Vec)
    requires Storable(space, table[id := v]) && id !in table
    ensures Storable(space, table)
  {
    forall x | x in table ensures TrimmedId(space, x) && space.normalize(table[x]).Some? {
      assert x in table[id := v] && table[id := v][x] == table[x];
    }
  }

  lemma AscendingWithLargest(ids: set<Str>, id: Str)
    requires forall x :: x in ids ==> Less(x, id)
    ensures Ascending(ids + {id}) == Ascending(ids) + [id]
  {
    hide Less;
    LessTotal();
    var s := Ascending(ids);
    ElementsSnoc(s, id);
    forall i | 0 <= i < |s| ensures Less(s[i], id) {
      assert s[i] in Elements(s);
    }
    StrictListingUnique(Less, Ascending(ids + {id}), s + [id]);
  }

  lemma ItemsWithLargest(space: Space, table: Table, ids: seq<Str>, id: Str, v: Vec)
    requires id !in table && Elements(ids) == table.Keys
    ensures ItemsFor(space, table[id := v], ids + [id]) ==
      ItemsFor(space, table, ids) + [ItemOf(space, table[id := v], id)]
  {
    var a, b := ItemsFor(space, table[id := v], ids + [id]), ItemsFor(space, table, ids);
    forall i | 0 <= i < |ids| ensures a[i] == b[i] {
      assert ids[i] in Elements(ids);
    }
  }
}
