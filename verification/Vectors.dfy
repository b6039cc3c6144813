/** What the vector indexes share: vectors, distances with exact arithmetic, and the order of neighbours. */
module Vectors {

  import opened Bytes
  import opened Ordering
  import opened Wrappers

  type Vec = seq<real>

  /** The functions the indexes are built on. Nothing is assumed of them beyond `Regular` where it is named. */
  datatype Space = Space(
    trim: Str -> Str,
    normalize: Vec -> Option<Vec>,
    cosine: (Vec, Vec) -> real,
    level: Str -> nat)

  ghost predicate TrimStable(space: Space) {
    forall s :: space.trim(space.trim(s)) == space.trim(s)
  }

  ghost predicate Regular(space: Space) {
    && TrimStable(space)
    && (forall v :: space.normalize(v).Some? ==> space.normalize(space.normalize(v).value) == space.normalize(v))
  }

  datatype Neighbor = Neighbor(id: Str, distance: real)

  /** Nearer first, ties by ID. */
  predicate Closer(left: Neighbor, right: Neighbor) {
    if left.distance == right.distance then Less(left.id, right.id) else left.distance < right.distance
  }

  lemma CloserTotal()
    ensures TotalOrder(Closer)
  {
    forall x: Neighbor ensures !Closer(x, x) { LessIrreflexive(x.id); }
    forall x: Neighbor, y: Neighbor, z: Neighbor | Closer(x, y) && Closer(y, z) ensures Closer(x, z) {
      if x.distance == y.distance == z.distance { LessTransitive(x.id, y.id, z.id); }
    }
    forall x: Neighbor, y: Neighbor ensures x == y || Closer(x, y) || Closer(y, x) { LessConnected(x.id, y.id); }
  }

  function Ids(ns: seq<Neighbor>): (r: seq<Str>)
    ensures |r| == |ns|
    ensures forall i :: 0 <= i < |r| ==> r[i] == ns[i].id
  {
    seq(|ns|, i requires 0 <= i < |ns| => ns[i].id)
  }

  /** Keeps the `breadth` nearest: a full list takes a newcomer only in place of its furthest. */
  function Offer(results: seq<Neighbor>, breadth: nat, n: Neighbor): seq<Neighbor> {
    if |results| < breadth || (results != [] && Closer(n, results[|results| - 1])) then
      var r := Insert(Closer, n, results);
      if |r| > breadth then r[..|r| - 1] else r
    else results
  }

  lemma {:induction false} InsertStrict(n: Neighbor, s: seq<Neighbor>)
    requires StrictlySorted(Closer, s) && n !in s
    ensures StrictlySorted(Closer, Insert(Closer, n, s))
    ensures forall x :: x in Insert(Closer, n, s) <==> x == n || x in s
  {
    CloserTotal();
    if s != [] && Closer(s[0], n) {
      InsertStrict(n, s[1..]);
      var t := Insert(Closer, n, s[1..]);
      forall k | 0 <= k < |t| ensures Closer(s[0], t[k]) {
        assert t[k] in t;
        assert t[k] == n || t[k] in s[1..];
      }
      assert s == [s[0]] + s[1..];
    }
  }

  lemma OfferWithRoom(results: seq<Neighbor>, breadth: nat, pool: set<Neighbor>, n: Neighbor)
    requires n !in pool && IsTop(Closer, results, breadth, pool) && |results| < breadth
    ensures IsTop(Closer, Insert(Closer, n, results), breadth, pool + {n})
  {
    InsertStrict(n, results);
    hide Closer, Insert;
    assert |pool + {n}| == |pool| + 1;
    WholePool(results, pool);
    assert Elements(Insert(Closer, n, results)) == pool + {n};
  }

  lemma OfferRefused(results: seq<Neighbor>, pool: set<Neighbor>, n: Neighbor)
    requires results != [] && IsTop(Closer, results, |results|, pool) && n !in pool
    requires !Closer(n, results[|results| - 1])
    ensures IsTop(Closer, results, |results|, pool + {n})
  {
    CloserTotal();
    hide Closer;
    var furthest := results[|results| - 1];
    assert furthest in Elements(results);
    assert |pool + {n}| == |pool| + 1;
    forall x | x in results ensures Closer(x, n) {
      var i :| 0 <= i < |results| && results[i] == x;
      assert x == furthest || Closer(x, furthest);
    }
  }

  /** Offering a newcomer to the best of a pool gives the best of the larger pool. */
  lemma OfferKeepsTop(results: seq<Neighbor>, breadth: nat, pool: set<Neighbor>, n: Neighbor)
    requires breadth > 0 && n !in pool
    requires IsTop(Closer, results, breadth, pool)
    ensures IsTop(Closer, Offer(results, breadth, n), breadth, pool + {n})
  {
    var r := Insert(Closer, n, results);
    assert |results| <= breadth;
    assert n !in results;
    hide Closer, Insert, IsTop;
    if |results| < breadth {
      OfferWithRoom(results, breadth, pool, n);
    } else if Closer(n, results[|results| - 1]) {
      InsertStrict(n, results);
      InsertBeforeLast(n, results);
      TopIsSorted(Closer, results, breadth, pool);
      DroppingFurthest(results, pool, n, r, results[|results| - 1]);
    } else {
      OfferRefused(results, pool, n);
    }
  }

  lemma DroppingFurthest(results: seq<Neighbor>, pool: set<Neighbor>, n: Neighbor, r: seq<Neighbor>, furthest: Neighbor)
    requires IsTop(Closer, results, |results|, pool) && n !in pool && furthest in results
    requires StrictlySorted(Closer, r) && |r| == |results| + 1 && r[|r| - 1] == furthest
    requires forall x :: x in r <==> x == n || x in results
    ensures IsTop(Closer, r[..|r| - 1], |results|, pool + {n})
  {
    CloserTotal();
    hide Closer;
    var kept := r[..|r| - 1];
    assert r == kept + [furthest];
    assert forall x :: x in kept ==> x in r && Closer(x, furthest);
    forall x, y | x in kept && y in pool + {n} && y !in kept ensures Closer(x, y) {
      if y != furthest {
        assert y !in r;
        assert Closer(furthest, y);
      }
    }
  }

  /** A listing that takes in the whole pool. */
  lemma WholePool(results: seq<Neighbor>, pool: set<Neighbor>)
    requires StrictlySorted(Closer, results) && Elements(results) <= pool && |results| == |pool|
    ensures Elements(results) == pool
  {
    CloserTotal();
    StrictIsDistinct(Closer, results);
    DistinctCard(results);
    assert pool == Elements(results) + (pool - Elements(results));
  }

  lemma {:induction false} InsertBeforeLast(n: Neighbor, s: seq<Neighbor>)
    requires s != [] && StrictlySorted(Closer, s) && Closer(n, s[|s| - 1])
    ensures Insert(Closer, n, s)[|s|] == s[|s| - 1]
  {
    CloserTotal();
    if Closer(s[0], n) {
      InsertBeforeLast(n, s[1..]);
    }
  }
}
