/** Merging the answers of search nodes: what one answer adds, and why the order of answers does not matter. */
module Fanout {

  import opened Bytes
  import opened Ordering
  import opened Wrappers

  datatype Hit = Hit(document: Str, collection: Str, node: Str, title: Str, snippet: Str, score: real, rank: int)

  datatype Node = Node(id: Str, collections: seq<Str>)

  /** A node and what became of its search: its hits, or nothing when it failed or did not answer in time. */
  datatype Answer = Answer(node: Node, outcome: Option<seq<Hit>>)

  datatype State = State(hits: map<Str, Hit>, scores: map<Str, real>, searched: set<Str>, unavailable: set<Str>)

  const EMPTY: State := State(map[], map[], {}, {})

  const RANK_CONSTANT: nat := 60

  // ---------------------------------------------------------------------------
  // One answer

  function Key(h: Hit): Str { h.collection + [0] + h.document }

  predicate Counts(h: Hit, key: Str) { h.document != [] && Key(h) == key }

  /** The position of the first hit with this key, or the length when there is none. */
  function First(hits: seq<Hit>, key: Str): (r: nat)
    ensures r <= |hits|
    ensures r < |hits| ==> Counts(hits[r], key)
    ensures forall i :: 0 <= i < r ==> !Counts(hits[i], key)
  {
    if hits == [] then 0
    else
      var n := |hits| - 1;
      var f := First(hits[..n], key);
      if f < n then f else if Counts(hits[n], key) then n else n + 1
  }

  predicate Has(hits: seq<Hit>, key: Str) { First(hits, key) < |hits| }

  function Keys(hits: seq<Hit>): (r: set<Str>)
    ensures forall key :: key in r <==> Has(hits, key)
  {
    var r := set i | 0 <= i < |hits| && hits[i].document != [] :: Key(hits[i]);
    assert forall key :: Has(hits, key) ==> Counts(hits[First(hits, key)], key);
    r
  }

  function Points(hits: seq<Hit>, key: Str): real {
    if Has(hits, key) then 1.0 / (RANK_CONSTANT + First(hits, key) + 1) as real else 0.0
  }

  function Owned(h: Hit, node: Node): Hit { if h.node == [] then h.(node := node.id) else h }

  function Offered(node: Node, hits: seq<Hit>, key: Str): Hit
    requires Has(hits, key)
  {
    Owned(hits[First(hits, key)], node)
  }

  function Held(scores: map<Str, real>, key: Str): real { if key in scores then scores[key] else 0.0 }

  /** The hit kept for a key: of two offers, the one from the smaller node ID. */
  function Kept(held: map<Str, Hit>, node: Node, hits: seq<Hit>, key: Str): Hit
    requires key in held || Has(hits, key)
  {
    if Has(hits, key) && (key !in held || Less(Offered(node, hits, key).node, held[key].node))
    then Offered(node, hits, key) else held[key]
  }

  function MergedHits(held: map<Str, Hit>, node: Node, hits: seq<Hit>): map<Str, Hit> {
    map key | key in held.Keys + Keys(hits) :: Kept(held, node, hits, key)
  }

  function MergedScores(scores: map<Str, real>, hits: seq<Hit>): map<Str, real> {
    map key | key in scores.Keys + Keys(hits) :: Held(scores, key) + Points(hits, key)
  }

  /** The shards a node stands for in a query: its requested collections, or itself when there are none. */
  function Shards(node: Node, requested: set<Str>): set<Str> {
    var shards := set i | 0 <= i < |node.collections| && (requested == {} || node.collections[i] in requested) ::
      node.id + [58] + node.collections[i];
    if shards == {} then {node.id} else shards
  }

  function Absorb(s: State, requested: set<Str>, a: Answer): State {
    match a.outcome
    case Some(hits) =>
      State(MergedHits(s.hits, a.node, hits), MergedScores(s.scores, hits), s.searched + Shards(a.node, requested),
        s.unavailable)
    case None => s.(unavailable := s.unavailable + Shards(a.node, requested))
  }

  function AbsorbAll(s: State, requested: set<Str>, answers: seq<Answer>): State {
    if answers == [] then s
    else Absorb(AbsorbAll(s, requested, answers[..|answers| - 1]), requested, answers[|answers| - 1])
  }

  // ---------------------------------------------------------------------------
  // Order of answers

  predicate Offers(a: Answer, key: Str) { a.outcome.Some? && Has(a.outcome.value, key) }

  /** The hit an answer offers under a key, with the node ID it will be held under. */
  function OfferOf(a: Answer, key: Str): Hit
    requires Offers(a, key)
  {
    Offered(a.node, a.outcome.value, key)
  }

  /** Two answers offer different hits under one key and one node ID. */
  predicate TiedAt(a: Answer, b: Answer, key: Str) {
    && Offers(a, key) && Offers(b, key)
    && OfferOf(a, key).node == OfferOf(b, key).node && OfferOf(a, key) != OfferOf(b, key)
  }

  ghost predicate Tied(a: Answer, b: Answer) { exists key :: TiedAt(a, b, key) }

  ghost predicate Untied(answers: seq<Answer>) {
    forall a, b :: a in answers && b in answers ==> !Tied(a, b)
  }

  /** Every hit names no node or the node that answered. */
  predicate Honest(a: Answer) {
    a.outcome.Some? ==> forall i :: 0 <= i < |a.outcome.value| ==> a.outcome.value[i].node in {[], a.node.id}
  }

  ghost predicate HonestAll(answers: seq<Answer>) {
    forall i :: 0 <= i < |answers| ==> Honest(answers[i])
  }

  ghost predicate DistinctNodes(answers: seq<Answer>) {
    forall i, j :: 0 <= i < j < |answers| ==> answers[i].node.id != answers[j].node.id
  }

  lemma OfferedBy(a: Answer, key: Str)
    requires Honest(a) && Offers(a, key)
    ensures OfferOf(a, key).node == a.node.id
  {
  }

  /** Honest answers of different nodes are never tied. */
  lemma HonestUntied(answers: seq<Answer>)
    requires HonestAll(answers) && DistinctNodes(answers)
    ensures Untied(answers)
  {
    hide Offers, OfferOf, Honest;
    forall a, b, key | a in answers && b in answers ensures !TiedAt(a, b, key) {
      if Offers(a, key) && Offers(b, key) {
        var i :| 0 <= i < |answers| && answers[i] == a;
        var j :| 0 <= j < |answers| && answers[j] == b;
        OfferedBy(a, key);
        OfferedBy(b, key);
        assert i == j || answers[i].node.id != answers[j].node.id;
      }
    }
  }

  lemma KeptCommutes(held: map<Str, Hit>, a: Answer, b: Answer, key: Str)
    requires !TiedAt(a, b, key) && a.outcome.Some? && b.outcome.Some?
    requires key in held || Has(a.outcome.value, key) || Has(b.outcome.value, key)
    ensures var x, y := MergedHits(held, a.node, a.outcome.value), MergedHits(held, b.node, b.outcome.value);
      && (key in x || Has(b.outcome.value, key)) && (key in y || Has(a.outcome.value, key))
      && Kept(x, b.node, b.outcome.value, key) == Kept(y, a.node, a.outcome.value, key)
  {
    hide Offered, Less, Has, First;
    LessTotal();
  }

  lemma HitsCommute(held: map<Str, Hit>, a: Answer, b: Answer)
    requires !Tied(a, b) && a.outcome.Some? && b.outcome.Some?
    ensures MergedHits(MergedHits(held, a.node, a.outcome.value), b.node, b.outcome.value)
         == MergedHits(MergedHits(held, b.node, b.outcome.value), a.node, a.outcome.value)
  {
    hide Kept, Has, TiedAt;
    forall key | key in held || Has(a.outcome.value, key) || Has(b.outcome.value, key)
      ensures var x, y := MergedHits(held, a.node, a.outcome.value), MergedHits(held, b.node, b.outcome.value);
        && (key in x || Has(b.outcome.value, key)) && (key in y || Has(a.outcome.value, key))
        && Kept(x, b.node, b.outcome.value, key) == Kept(y, a.node, a.outcome.value, key)
    {
      KeptCommutes(held, a, b, key);
    }
  }

  lemma ScoreMerged(scores: map<Str, real>, hits: seq<Hit>, key: Str)
    ensures key in MergedScores(scores, hits) <==> key in scores || Has(hits, key)
    ensures Held(MergedScores(scores, hits), key) == Held(scores, key) + Points(hits, key)
  {
    NoPoints(hits);
    hide Points, Has;
  }

  lemma ScoresCommute(scores: map<Str, real>, a: seq<Hit>, b: seq<Hit>)
    ensures MergedScores(MergedScores(scores, a), b) == MergedScores(MergedScores(scores, b), a)
  {
    hide Points, Has, MergedScores;
    var x, y := MergedScores(MergedScores(scores, a), b), MergedScores(MergedScores(scores, b), a);
    forall key ensures (key in x <==> key in y) && (key in x ==> x[key] == y[key]) {
      ScoreMerged(scores, a, key);
      ScoreMerged(scores, b, key);
      ScoreMerged(MergedScores(scores, a), b, key);
      ScoreMerged(MergedScores(scores, b), a, key);
    }
  }

  lemma NoPoints(hits: seq<Hit>)
    ensures forall key :: !Has(hits, key) ==> Points(hits, key) == 0.0
  {
  }

  /** Answers that are not tied may come in either order. */
  lemma AbsorbCommutes(s: State, requested: set<Str>, a: Answer, b: Answer)
    requires !Tied(a, b)
    ensures Absorb(Absorb(s, requested, a), requested, b) == Absorb(Absorb(s, requested, b), requested, a)
  {
    hide Tied, MergedHits, MergedScores, Shards;
    if a.outcome.Some? && b.outcome.Some? {
      HitsCommute(s.hits, a, b);
      ScoresCommute(s.scores, a.outcome.value, b.outcome.value);
    }
  }

  /** Of two tied answers, the first to come is kept. */
  lemma FirstOfTwoKept(requested: set<Str>, a: Answer, b: Answer, key: Str)
    requires Offers(a, key) && (Offers(b, key) ==> !Less(OfferOf(b, key).node, OfferOf(a, key).node))
    ensures var s := Absorb(Absorb(EMPTY, requested, a), requested, b);
      key in s.hits && s.hits[key] == OfferOf(a, key)
  {
    hide Has, Offered, Shards, MergedScores;
  }

  /** Two answers may come in either order, whatever came before, if and only if they are not tied. */
  lemma AbsorbCommutesIff(requested: set<Str>, a: Answer, b: Answer)
    ensures (forall s :: Absorb(Absorb(s, requested, a), requested, b) == Absorb(Absorb(s, requested, b), requested, a))
       <==> !Tied(a, b)
  {
    hide Absorb, Offers, OfferOf;
    if !Tied(a, b) {
      forall s ensures Absorb(Absorb(s, requested, a), requested, b) == Absorb(Absorb(s, requested, b), requested, a) {
        AbsorbCommutes(s, requested, a, b);
      }
    } else {
      var key :| TiedAt(a, b, key);
      LessIrreflexive(OfferOf(a, key).node);
      FirstOfTwoKept(requested, a, b, key);
      FirstOfTwoKept(requested, b, a, key);
      assert Absorb(Absorb(EMPTY, requested, a), requested, b) != Absorb(Absorb(EMPTY, requested, b), requested, a);
    }
  }

  lemma AbsorbAllSnoc(s: State, requested: set<Str>, answers: seq<Answer>, a: Answer)
    ensures AbsorbAll(s, requested, answers + [a]) == Absorb(AbsorbAll(s, requested, answers), requested, a)
  {
    hide Absorb;
    assert (answers + [a])[..|answers|] == answers;
  }

  function Without<T>(s: seq<T>, j: nat): seq<T>
    requires j < |s|
  {
    s[..j] + s[j + 1..]
  }

  /** An answer may as well have come last. */
  lemma {:induction false} MoveToEnd(s: State, requested: set<Str>, answers: seq<Answer>, j: nat)
    requires j < |answers| && Untied(answers)
    ensures AbsorbAll(s, requested, answers) ==
      Absorb(AbsorbAll(s, requested, Without(answers, j)), requested, answers[j])
    decreases |answers|
  {
    hide Absorb, Tied;
    var n := |answers| - 1;
    var init, last := answers[..n], answers[n];
    if j == n {
      assert Without(answers, j) == init;
    } else {
      MoveToEnd(s, requested, init, j);
      assert Without(answers, j) == Without(init, j) + [last];
      AbsorbAllSnoc(s, requested, Without(init, j), last);
      assert answers[j] in answers && last in answers;
      AbsorbCommutes(AbsorbAll(s, requested, Without(init, j)), requested, answers[j], last);
    }
  }

  lemma WithoutElement<T>(s: seq<T>, j: nat)
    requires j < |s|
    ensures multiset(s) == multiset(Without(s, j)) + multiset{s[j]}
  {
    assert s == s[..j] + [s[j]] + s[j + 1..];
  }

  lemma WithoutKeeps(answers: seq<Answer>, j: nat)
    requires j < |answers| && Untied(answers)
    ensures Untied(Without(answers, j))
  {
    hide Tied;
    assert forall a :: a in Without(answers, j) ==> a in answers;
  }

  lemma Find<T>(s: seq<T>, x: T) returns (j: nat)
    requires x in multiset(s)
    ensures j < |s| && s[j] == x
  {
    j :| 0 <= j < |s| && s[j] == x;
  }

  /** Untied answers may come in any order, whatever came before. */
  lemma {:induction false} OrderDoesNotMatter(s: State, requested: set<Str>, a: seq<Answer>, b: seq<Answer>)
    requires Untied(a) && Untied(b) && multiset(a) == multiset(b)
    ensures AbsorbAll(s, requested, a) == AbsorbAll(s, requested, b)
    decreases |a|
  {
    hide Absorb, Untied, Without;
    assert |a| == |multiset(a)| && |b| == |multiset(b)|;
    if a != [] {
      var n := |a| - 1;
      assert a[n] in multiset(a);
      var j := Find(b, a[n]);
      WithoutBoth(a, n, b, j);
      WithoutKeeps(a, n);
      WithoutKeeps(b, j);
      OneFewer(a, n);
      OrderDoesNotMatter(s, requested, Without(a, n), Without(b, j));
      MoveToEnd(s, requested, a, n);
      MoveToEnd(s, requested, b, j);
    }
  }

  lemma WithoutBoth<T>(a: seq<T>, i: nat, b: seq<T>, j: nat)
    requires i < |a| && j < |b| && a[i] == b[j] && multiset(a) == multiset(b)
    ensures multiset(Without(a, i)) == multiset(Without(b, j))
  {
    hide Without;
    WithoutElement(a, i);
    WithoutElement(b, j);
    assert multiset(Without(a, i)) == multiset(a) - multiset{a[i]} == multiset(b) - multiset{b[j]} ==
      multiset(Without(b, j));
  }

  lemma OneFewer<T>(s: seq<T>, j: nat)
    requires j < |s|
    ensures |Without(s, j)| == |s| - 1
  {
  }

  // ---------------------------------------------------------------------------
  // What the merged state holds

  /** The reciprocal ranks a key has with the nodes that answered, added up. */
  function TotalPoints(answers: seq<Answer>, key: Str): real {
    if answers == [] then 0.0
    else
      var a := answers[|answers| - 1];
      TotalPoints(answers[..|answers| - 1], key) + (if a.outcome.Some? then Points(a.outcome.value, key) else 0.0)
  }

  /** A key is held exactly when some node offered it, and its score is its total of reciprocal ranks. */
  lemma {:induction false} ScoresAddUp(requested: set<Str>, answers: seq<Answer>, key: Str)
    ensures var s := AbsorbAll(EMPTY, requested, answers);
      && (key in s.hits <==> exists i :: 0 <= i < |answers| && Offers(answers[i], key))
      && s.scores.Keys == s.hits.Keys && Held(s.scores, key) == TotalPoints(answers, key)
  {
    hide Points, Has, Kept, Shards;
    if answers != [] {
      var init, last := answers[..|answers| - 1], answers[|answers| - 1];
      ScoresAddUp(requested, init, key);
      if last.outcome.Some? {
        NoPoints(last.outcome.value);
      }
      OffersSnoc(init, last, key);
      assert init + [last] == answers;
    }
  }

  lemma OffersSnoc(init: seq<Answer>, last: Answer, key: Str)
    ensures (exists i :: 0 <= i < |init + [last]| && Offers((init + [last])[i], key))
       <==> (exists i :: 0 <= i < |init| && Offers(init[i], key)) || Offers(last, key)
  {
    hide Offers;
    var all := init + [last];
    if i :| 0 <= i < |init| && Offers(init[i], key) {
      assert Offers(all[i], key);
    }
    if Offers(last, key) {
      assert Offers(all[|init|], key);
    }
  }

  /** The hit held for a key comes from the smallest node ID that it was offered under. */
  lemma {:induction false} SmallestNodeHolds(requested: set<Str>, answers: seq<Answer>, key: Str, i: nat)
    requires i < |answers| && Offers(answers[i], key)
    ensures var s := AbsorbAll(EMPTY, requested, answers);
      key in s.hits && !Less(OfferOf(answers[i], key).node, s.hits[key].node)
    decreases |answers|
  {
    hide Less, Absorb, Offers, OfferOf;
    var n := |answers| - 1;
    if i < n {
      SmallestNodeHolds(requested, answers[..n], key, i);
    }
    SmallerKept(AbsorbAll(EMPTY, requested, answers[..n]), requested, answers[n], key, OfferOf(answers[i], key).node);
  }

  lemma SmallerKept(s: State, requested: set<Str>, a: Answer, key: Str, id: Str)
    requires (key in s.hits && !Less(id, s.hits[key].node)) || (Offers(a, key) && OfferOf(a, key).node == id)
    ensures var r := Absorb(s, requested, a); key in r.hits && !Less(id, r.hits[key].node)
  {
    hide Less, Has, Offered, Shards, MergedScores;
    LessTotal();
  }

  /** The hit held for a key is the first one some node offered under it. */
  lemma {:induction false} HeldWasOffered(requested: set<Str>, answers: seq<Answer>, key: Str) returns (i: nat)
    requires key in AbsorbAll(EMPTY, requested, answers).hits
    ensures i < |answers| && Offers(answers[i], key)
    ensures AbsorbAll(EMPTY, requested, answers).hits[key] == OfferOf(answers[i], key)
  {
    hide Less, Has, Offered, Shards, MergedScores;
    var n := |answers| - 1;
    var s := AbsorbAll(EMPTY, requested, answers[..n]);
    if Offers(answers[n], key) && AbsorbAll(EMPTY, requested, answers).hits[key] == OfferOf(answers[n], key) {
      i := n;
    } else {
      i := HeldWasOffered(requested, answers[..n], key);
    }
  }

  // ---------------------------------------------------------------------------
  // When the order does matter

  /** Some key is offered twice, differently, under the smallest node ID it is offered under. */
  ghost predicate Contested(answers: seq<Answer>) {
    exists key, a, b :: a in answers && b in answers && TiedAt(a, b, key) && Smallest(answers, a, key)
  }

  ghost predicate Smallest(answers: seq<Answer>, a: Answer, key: Str)
    requires Offers(a, key)
  {
    forall z :: z in answers && Offers(z, key) ==> !Less(OfferOf(z, key).node, OfferOf(a, key).node)
  }

  /** An answer that comes first and is offered under the smallest ID is kept. */
  lemma {:induction false} FirstSmallestKept(requested: set<Str>, a: Answer, rest: seq<Answer>, key: Str)
    requires Offers(a, key) && Smallest(rest, a, key)
    ensures var s := AbsorbAll(EMPTY, requested, [a] + rest); key in s.hits && s.hits[key] == OfferOf(a, key)
  {
    hide Less, Offers, OfferOf, Absorb;
    if rest == [] {
      assert [a] + rest == [a];
      AbsorbAllSnoc(EMPTY, requested, [], a);
      assert [] + [a] == [a];
      OnlyOneKept(requested, a, key);
    } else {
      var n := |rest| - 1;
      assert [a] + rest == ([a] + rest[..n]) + [rest[n]];
      AbsorbAllSnoc(EMPTY, requested, [a] + rest[..n], rest[n]);
      assert forall z :: z in rest[..n] ==> z in rest;
      FirstSmallestKept(requested, a, rest[..n], key);
      assert rest[n] in rest;
      NotReplaced(AbsorbAll(EMPTY, requested, [a] + rest[..n]), requested, rest[n], key);
    }
  }

  lemma OnlyOneKept(requested: set<Str>, a: Answer, key: Str)
    requires Offers(a, key)
    ensures AbsorbAll(EMPTY, requested, []) == EMPTY
    ensures var s := Absorb(EMPTY, requested, a); key in s.hits && s.hits[key] == OfferOf(a, key)
  {
    hide Less, Has, Offered, Shards, MergedScores;
  }

  lemma NotReplaced(s: State, requested: set<Str>, a: Answer, key: Str)
    requires key in s.hits && (Offers(a, key) ==> !Less(OfferOf(a, key).node, s.hits[key].node))
    ensures var r := Absorb(s, requested, a); key in r.hits && r.hits[key] == s.hits[key]
  {
    hide Less, Has, Offered, Shards, MergedScores;
  }

  /** Whether a key is held, and its score, never depend on the order. */
  lemma {:induction false} PointsPermute(a: seq<Answer>, b: seq<Answer>, key: Str)
    requires multiset(a) == multiset(b)
    ensures TotalPoints(a, key) == TotalPoints(b, key)
    decreases |a|
  {
    hide Without, TotalPoints;
    assert |a| == |multiset(a)| && |b| == |multiset(b)|;
    if a != [] {
      var n := |a| - 1;
      assert a[n] in multiset(a);
      var j := Find(b, a[n]);
      WithoutBoth(a, n, b, j);
      OneFewer(a, n);
      PointsPermute(Without(a, n), Without(b, j), key);
      PointsWithout(a, n, key);
      PointsWithout(b, j, key);
    }
  }

  lemma {:induction false} PointsWithout(answers: seq<Answer>, j: nat, key: Str)
    requires j < |answers|
    ensures TotalPoints(answers, key) == TotalPoints(Without(answers, j), key) +
      (if answers[j].outcome.Some? then Points(answers[j].outcome.value, key) else 0.0)
    decreases |answers|
  {
    hide Points;
    var n := |answers| - 1;
    if j == n {
      assert Without(answers, j) == answers[..n];
    } else {
      PointsWithout(answers[..n], j, key);
      assert Without(answers, j) == Without(answers[..n], j) + [answers[n]];
      assert Without(answers, j)[..n - 1] == Without(answers[..n], j);
    }
  }

  /** Coverage as sets over the answers. */
  lemma {:induction false} CoverageOf(requested: set<Str>, answers: seq<Answer>, shard: Str)
    ensures var s := AbsorbAll(EMPTY, requested, answers);
      && (shard in s.searched <==> exists a :: a in answers && a.outcome.Some? && shard in Shards(a.node, requested))
      && (shard in s.unavailable <==> exists a :: a in answers && a.outcome.None? && shard in Shards(a.node, requested))
  {
    hide Shards, MergedHits, MergedScores;
    if answers != [] {
      var init, last := answers[..|answers| - 1], answers[|answers| - 1];
      CoverageOf(requested, init, shard);
      assert answers == init + [last];
    }
  }

  /** Which hit is held does not depend on the order unless it is contested. */
  lemma HeldPermutes(requested: set<Str>, a: seq<Answer>, b: seq<Answer>, key: Str)
    requires multiset(a) == multiset(b) && !Contested(a) && key in AbsorbAll(EMPTY, requested, a).hits
    ensures var s, t := AbsorbAll(EMPTY, requested, a), AbsorbAll(EMPTY, requested, b);
      key in t.hits && s.hits[key] == t.hits[key]
  {
    hide AbsorbAll, Offers, OfferOf, Less;
    SameElements(a, b);
    assert forall z :: z in a <==> z in Elements(a);
    assert forall z :: z in b <==> z in Elements(b);
    var i := HeldWasOffered(requested, a, key);
    assert a[i] in b;
    var k :| 0 <= k < |b| && b[k] == a[i];
    SmallestNodeHolds(requested, b, key, k);
    var j := HeldWasOffered(requested, b, key);
    assert b[j] in a;
    forall z | z in a && Offers(z, key) ensures !Less(OfferOf(z, key).node, OfferOf(a[i], key).node) {
      var l :| 0 <= l < |a| && a[l] == z;
      SmallestNodeHolds(requested, a, key, l);
    }
    LessTotal();
    assert a[i] in a && Smallest(a, a[i], key);
    assert !TiedAt(a[i], b[j], key);
  }

  lemma UncontestedPermutes(requested: set<Str>, a: seq<Answer>, b: seq<Answer>)
    requires multiset(a) == multiset(b) && !Contested(a) && !Contested(b)
    ensures AbsorbAll(EMPTY, requested, a) == AbsorbAll(EMPTY, requested, b)
  {
    hide AbsorbAll, Contested, TotalPoints, Offers, Shards;
    var s, t := AbsorbAll(EMPTY, requested, a), AbsorbAll(EMPTY, requested, b);
    SameElements(a, b);
    assert forall z :: z in a <==> z in Elements(a);
    assert forall z :: z in b <==> z in Elements(b);
    forall key ensures (key in s.hits <==> key in t.hits) && (key in s.hits ==> s.hits[key] == t.hits[key]) {
      if key in s.hits { HeldPermutes(requested, a, b, key); }
      if key in t.hits { HeldPermutes(requested, b, a, key); }
    }
    forall key ensures (key in s.scores <==> key in t.scores) && (key in s.scores ==> s.scores[key] == t.scores[key]) {
      ScoresAddUp(requested, a, key);
      ScoresAddUp(requested, b, key);
      PointsPermute(a, b, key);
    }
    forall shard ensures (shard in s.searched <==> shard in t.searched) &&
      (shard in s.unavailable <==> shard in t.unavailable) {
      CoverageOf(requested, a, shard);
      CoverageOf(requested, b, shard);
    }
    assert s.hits == t.hits && s.scores == t.scores && s.searched == t.searched && s.unavailable == t.unavailable;
  }

  lemma ContestedPermutes(a: seq<Answer>, b: seq<Answer>)
    requires multiset(a) == multiset(b)
    ensures Contested(a) <==> Contested(b)
  {
    hide TiedAt, Offers, OfferOf;
    SameElements(a, b);
    forall z ensures z in a <==> z in b {
      assert z in a <==> z in Elements(a);
      assert z in b <==> z in Elements(b);
    }
    ContestedWithin(a, b);
    ContestedWithin(b, a);
  }

  lemma ContestedWithin(a: seq<Answer>, b: seq<Answer>)
    requires forall z :: z in a <==> z in b
    ensures Contested(a) ==> Contested(b)
  {
    hide Offers, OfferOf;
    if Contested(a) {
      var key, x, y :| x in a && y in a && TiedAt(x, y, key) && Smallest(a, x, key);
      assert x in b && y in b && Smallest(b, x, key);
    }
  }

  /** An answer brought to the front. */
  lemma BroughtForward(requested: set<Str>, answers: seq<Answer>, a: Answer, key: Str) returns (b: seq<Answer>)
    requires a in answers && Offers(a, key) && Smallest(answers, a, key)
    ensures multiset(b) == multiset(answers)
    ensures var s := AbsorbAll(EMPTY, requested, b); key in s.hits && s.hits[key] == OfferOf(a, key)
  {
    hide AbsorbAll, Offers, OfferOf;
    var i :| 0 <= i < |answers| && answers[i] == a;
    b := [a] + Without(answers, i);
    WithoutElement(answers, i);
    assert forall z :: z in Without(answers, i) ==> z in answers;
    hide Without;
    FirstSmallestKept(requested, a, Without(answers, i), key);
  }

  /** The merged state is the same for every order of the answers if and only if no key is contested. */
  lemma OrderMattersIff(requested: set<Str>, a: seq<Answer>)
    ensures (forall b :: multiset(b) == multiset(a) ==>
      AbsorbAll(EMPTY, requested, b) == AbsorbAll(EMPTY, requested, a))
       <==> !Contested(a)
  {
    hide AbsorbAll, Offers, OfferOf;
    if !Contested(a) {
      forall b | multiset(b) == multiset(a) ensures AbsorbAll(EMPTY, requested, b) == AbsorbAll(EMPTY, requested, a) {
        ContestedPermutes(a, b);
        UncontestedPermutes(requested, a, b);
      }
    } else {
      var key, x, y :| x in a && y in a && TiedAt(x, y, key) && Smallest(a, x, key);
      assert Smallest(a, y, key);
      var b := BroughtForward(requested, a, x, key);
      var c := BroughtForward(requested, a, y, key);
      assert AbsorbAll(EMPTY, requested, b) != AbsorbAll(EMPTY, requested, c);
    }
  }

  /** Untied answers contest nothing. */
  lemma UntiedUncontested(answers: seq<Answer>)
    requires Untied(answers)
    ensures !Contested(answers)
  {
    hide TiedAt, Smallest;
    forall key, a, b | a in answers && b in answers ensures !TiedAt(a, b, key) {
      assert !Tied(a, b);
    }
  }

  /** Two nodes that answer under one node ID, with texts that differ, make the order matter. */
  lemma BorrowedNodeIdsDependOnOrder(a: Node, b: Node, h: Hit, g: Hit)
    requires h.document != [] && h.node != [] && g == h.(title := h.title + [0])
    ensures Contested([Answer(a, Some([h])), Answer(b, Some([g]))])
  {
    var x, y, key := Answer(a, Some([h])), Answer(b, Some([g])), Key(h);
    OneHit(h, key);
    OneHit(g, key);
    assert |g.title| != |h.title|;
    LessIrreflexive(h.node);
    hide Less, First, Has;
    assert x in [x, y] && y in [x, y] && TiedAt(x, y, key);
    assert Smallest([x, y], x, key);
  }

  lemma OneHit(h: Hit, key: Str)
    requires h.document != [] && key == Key(h)
    ensures Has([h], key) && First([h], key) == 0
  {
    assert Counts([h][0], key);
  }

  ghost predicate NulFree(s: Str) { forall i :: 0 <= i < |s| ==> s[i] != 0 }

  lemma NulEndsCollection(a: Hit, b: Hit)
    requires NulFree(b.collection) && Key(a) == Key(b)
    ensures |a.collection| >= |b.collection|
  {
    assert Key(a)[|a.collection|] == 0;
    forall i | 0 <= i < |b.collection| ensures Key(b)[i] != 0 {}
  }

  /** With no NUL byte in collection IDs, keys stand for pairs of collection and document. */
  lemma KeysIdentify(a: Hit, b: Hit)
    requires NulFree(a.collection) && NulFree(b.collection)
    ensures Key(a) == Key(b) <==> a.collection == b.collection && a.document == b.document
  {
    if Key(a) == Key(b) {
      NulEndsCollection(a, b);
      NulEndsCollection(b, a);
      assert a.collection == Key(a)[..|a.collection|] && b.collection == Key(b)[..|b.collection|];
      assert a.document == Key(a)[|a.collection| + 1..] && b.document == Key(b)[|b.collection| + 1..];
    }
  }

  // ---------------------------------------------------------------------------
  // Coverage

  function ShardsOf(answers: seq<Answer>, requested: set<Str>): set<Str> {
    if answers == [] then {}
      else ShardsOf(answers[..|answers| - 1], requested) + Shards(answers[|answers| - 1].node, requested)
  }

  /** Searched and unavailable shards together are the shards of all the nodes. */
  lemma {:induction false} CoverageIsComplete(s: State, requested: set<Str>, answers: seq<Answer>)
    ensures var r := AbsorbAll(s, requested, answers);
      r.searched + r.unavailable == s.searched + s.unavailable + ShardsOf(answers, requested)
  {
    hide Shards, MergedHits, MergedScores;
    if answers != [] {
      CoverageIsComplete(s, requested, answers[..|answers| - 1]);
    }
  }
}
