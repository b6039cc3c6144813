/** How good a layer search of any breadth is: it stops only where no step from its results improves them. */
module HnswLocal {

  import opened Bytes
  import opened Ordering
  import opened Vectors
  import opened Hnsw

  /** What is not among the best of a pool is not among the best of a larger one. */
  lemma StaysOut(r: seq<Neighbor>, s: seq<Neighbor>, k: nat, pool: set<Neighbor>, larger: set<Neighbor>, y: Neighbor)
    requires IsTop(Closer, r, k, pool) && IsTop(Closer, s, k, larger) && pool <= larger
    requires y in pool && y !in r
    ensures y !in s
  {
    CloserTotal();
    hide Closer;
    FullWithout(r, k, pool, y);
    if y in s {
      forall x | x in Elements(r) ensures x in Elements(s) {
        assert Closer(x, y);
      }
      StrictIsDistinct(Closer, r);
      StrictIsDistinct(Closer, s);
      DistinctCard(r);
      DistinctCard(s);
      assert Elements(r) + {y} <= Elements(s);
      SubsetSize(Elements(r) + {y}, Elements(s));
    }
  }

  /** Every visited node but `spare` is still a candidate, has had all its neighbours visited, or is no result. */
  ghost predicate SettledBut(space: Space, g: Graph, query: Vec, level: nat, f: Frontier, spare: set<Str>) {
    forall id, n :: id in f.visited && id !in spare && n in Adjacent(g, id, level) ==>
      n in f.visited || At(space, g, query, id) in f.candidates || At(space, g, query, id) !in f.results
  }

  lemma VisitKeeps(space: Space, g: Graph, query: Vec, breadth: nat, f: Frontier, id: Str)
    requires breadth > 0 && Sound(space, g, query, breadth, f) && id !in f.visited
    ensures var n, r := At(space, g, query, id), Visit(space, g, query, breadth, f, id);
      && r.visited == f.visited + {id} && (n in r.candidates || n !in r.results)
      && (forall c :: c in f.candidates ==> c in r.candidates)
      && (forall x :: x in f.visited && At(space, g, query, x) !in f.results ==> At(space, g, query, x) !in r.results)
  {
    var n, r := At(space, g, query, id), Visit(space, g, query, breadth, f, id);
    var pool := Pool(space, g, query, f.visited);
    assert n !in pool && n !in f.candidates;
    InsertStrict(n, f.candidates);
    VisitSound(space, g, query, breadth, f, id);
    hide Closer, Insert, IsTop, Offer;
    var larger := Pool(space, g, query, r.visited);
    assert pool <= larger;
    if !Admits(f, breadth, n) {
      TopWithin(f.results, breadth, pool, n);
    }
    forall x | x in f.visited && At(space, g, query, x) !in f.results ensures At(space, g, query, x) !in r.results {
      StaysOut(f.results, r.results, breadth, pool, larger, At(space, g, query, x));
    }
  }

  lemma TopWithin(r: seq<Neighbor>, k: nat, pool: set<Neighbor>, n: Neighbor)
    requires IsTop(Closer, r, k, pool) && n !in pool
    ensures n !in r
  {
    hide Closer;
    assert n in r ==> n in Elements(r);
  }

  lemma VisitSettles(space: Space, g: Graph, query: Vec, breadth: nat, level: nat, f: Frontier, id: Str,
      spare: set<Str>)
    requires breadth > 0 && Sound(space, g, query, breadth, f) && SettledBut(space, g, query, level, f, spare)
    ensures SettledBut(space, g, query, level, Visit(space, g, query, breadth, f, id), spare)
  {
    hide Sound, At, Adjacent;
    if id !in f.visited {
      VisitKeeps(space, g, query, breadth, f, id);
      hide Visit;
    }
  }

  lemma {:induction false} ExpandSettles(space: Space, g: Graph, query: Vec, breadth: nat, level: nat, f: Frontier,
      list: seq<Str>, spare: set<Str>)
    requires breadth > 0 && Sound(space, g, query, breadth, f) && SettledBut(space, g, query, level, f, spare)
    ensures SettledBut(space, g, query, level, Expand(space, g, query, breadth, f, list), spare)
    decreases |list|
  {
    hide Sound, Visit, SettledBut;
    if list != [] {
      VisitSound(space, g, query, breadth, f, list[0]);
      VisitSettles(space, g, query, breadth, level, f, list[0], spare);
      ExpandSettles(space, g, query, breadth, level, Visit(space, g, query, breadth, f, list[0]), list[1..], spare);
    }
  }

  lemma TakeCandidate(space: Space, g: Graph, query: Vec, breadth: nat, level: nat, f: Frontier)
    requires Sound(space, g, query, breadth, f) && SettledBut(space, g, query, level, f, {}) && f.candidates != []
    ensures var c, rest := f.candidates[0], f.(candidates := f.candidates[1..]);
      && Sound(space, g, query, breadth, rest) && c.id in f.visited
      && SettledBut(space, g, query, level, rest, {c.id})
  {
    hide IsTop, Closer;
    var c := f.candidates[0];
    assert c in f.candidates;
    forall x | x in f.candidates && x != c ensures x in f.candidates[1..] {
      assert f.candidates == [c] + f.candidates[1..];
    }
  }

  lemma SettledAfter(space: Space, g: Graph, query: Vec, level: nat, f: Frontier, id: Str)
    requires SettledBut(space, g, query, level, f, {id}) && Elements(Adjacent(g, id, level)) <= f.visited
    ensures SettledBut(space, g, query, level, f, {})
  {
    forall n | n in Adjacent(g, id, level) ensures n in f.visited {
      assert n in Elements(Adjacent(g, id, level));
    }
  }

  lemma {:induction false} ExploreSettles(space: Space, g: Graph, query: Vec, breadth: nat, level: nat, f: Frontier)
    requires LayerClosed(g, level) && breadth > 0
    requires Sound(space, g, query, breadth, f) && SettledBut(space, g, query, level, f, {})
    ensures SettledBut(space, g, query, level, Explore(space, g, query, breadth, level, f), {})
    decreases Work(g, f)
  {
    if !Finished(f, breadth) {
      var c, rest := f.candidates[0], f.(candidates := f.candidates[1..]);
      var list := Adjacent(g, c.id, level);
      TakeCandidate(space, g, query, breadth, level, f);
      ExpandWork(space, g, query, breadth, rest, list);
      hide Sound, SettledBut, Expand;
      ExpandSettles(space, g, query, breadth, level, rest, list, {c.id});
      ExpandSound(space, g, query, breadth, rest, list);
      ExpandVisits(space, g, query, breadth, rest, list);
      var r := Expand(space, g, query, breadth, rest, list);
      SettledAfter(space, g, query, level, r, c.id);
      ExploreSettles(space, g, query, breadth, level, r);
    }
  }

  /** A layer search of any breadth ends at a local optimum: no neighbour of a returned node is left out although it
      is closer than the furthest returned one, and none is left out at all while there is room. Only the furthest
      node of a full list need not have been followed. */
  lemma SearchIsLocallyOptimal(space: Space, g: Graph, query: Vec, entry: Str, breadth: nat, level: nat, i: nat, n: Str)
    requires LayerClosed(g, level) && breadth > 0 && entry in g.nodes
    requires i < |SearchLayer(space, g, query, [entry], breadth, level)|
    requires n in Adjacent(g, SearchLayer(space, g, query, [entry], breadth, level)[i].id, level)
    requires n !in Ids(SearchLayer(space, g, query, [entry], breadth, level))
    ensures var r := SearchLayer(space, g, query, [entry], breadth, level);
      |r| == breadth && (i == |r| - 1 || Closer(r[|r| - 1], At(space, g, query, n)))
  {
    var f := Seed(space, g, query, [entry]);
    SeedSound(space, g, query, [entry], breadth);
    OpenAtStart(space, g, query, level, f);
    assert SettledBut(space, g, query, level, f, {});
    ExploreSound(space, g, query, breadth, level, f, g.nodes.Keys);
    ExploreSettles(space, g, query, breadth, level, f);
    var end := Explore(space, g, query, breadth, level, f);
    hide Explore, Seed;
    LocallyOptimal(space, g, query, breadth, level, end, i, n);
  }

  lemma LocallyOptimal(space: Space, g: Graph, query: Vec, breadth: nat, level: nat, f: Frontier, i: nat, n: Str)
    requires Sound(space, g, query, breadth, f) && Finished(f, breadth) && SettledBut(space, g, query, level, f, {})
    requires i < |f.results| && n in Adjacent(g, f.results[i].id, level) && n !in Ids(f.results)
    ensures var r := f.results; |r| == breadth && (i == |r| - 1 || Closer(r[|r| - 1], At(space, g, query, n)))
  {
    hide Closer;
    var r, x := f.results, f.results[i];
    assert x in Elements(r);
    assert x.id in f.visited && x == At(space, g, query, x.id);
    if n in f.visited {
      NotListed(r, At(space, g, query, n));
      FullWithout(r, breadth, Pool(space, g, query, f.visited), At(space, g, query, n));
      assert r[|r| - 1] in r;
    } else {
      assert x in f.candidates;
      LaterIsNoCloser(f.candidates, x, r[|r| - 1]);
    }
  }

  lemma NotListed(r: seq<Neighbor>, n: Neighbor)
    requires n.id !in Ids(r)
    ensures n !in r
  {
    forall k | 0 <= k < |r| ensures r[k] != n {
      assert Ids(r)[k] in Ids(r);
    }
  }

  lemma FullWithout(r: seq<Neighbor>, k: nat, pool: set<Neighbor>, y: Neighbor)
    requires IsTop(Closer, r, k, pool) && y in pool && y !in r
    ensures |r| == k
  {
    hide Closer;
    if |r| == |pool| {
      WholePool(r, pool);
    }
  }

  lemma LaterIsNoCloser(s: seq<Neighbor>, x: Neighbor, last: Neighbor)
    requires StrictlySorted(Closer, s) && x in s && !Closer(s[0], last)
    ensures !Closer(x, last)
  {
    CloserTotal();
    hide Closer;
    var k :| 0 <= k < |s| && s[k] == x;
    if k > 0 {
      assert Closer(s[0], s[k]);
    }
  }
}
