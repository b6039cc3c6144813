/** When the update that is sent, and not only the merged state, depends on the order of answers. */
module FanoutOrder {

  import opened Bytes
  import opened Ordering
  import opened Wrappers
  import opened Fanout
  import opened FanoutRuns

  /** A hit without the score and rank that an update gives it. */
  function Bare(h: Hit): Hit { h.(score := 0.0, rank := 0) }

  /** Two answers offer visibly different hits under one key and the smallest node ID it is offered under. */
  ghost predicate Disputed(answers: seq<Answer>, key: Str) {
    exists a, b :: a in answers && b in answers && Rivals(answers, a, b, key)
  }

  ghost predicate Rivals(answers: seq<Answer>, a: Answer, b: Answer, key: Str) {
    && Offers(a, key) && Offers(b, key) && OfferOf(a, key).node == OfferOf(b, key).node
    && Bare(OfferOf(a, key)) != Bare(OfferOf(b, key)) && Smallest(answers, a, key)
  }

  /** No collection ID holds a NUL byte, so that keys identify documents. */
  ghost predicate PlainKeys(answers: seq<Answer>) {
    forall a, h :: a in answers && a.outcome.Some? && h in a.outcome.value ==> NulFree(h.collection)
  }

  ghost function Merged(q: Query, answers: seq<Answer>): State { AbsorbAll(EMPTY, q.requested, answers) }

  /** The keys an update lists. */
  ghost function TopKeys(q: Query, s: State): set<Str> {
    set i | 0 <= i < Min(q.limit, |Ranking(s)|) :: Key(Ranking(s)[i])
  }

  // ---------------------------------------------------------------------------
  // States that differ only in the texts of hits

  ghost predicate Alike(s: State, t: State) {
    && Keyed(s) && Keyed(t) && s.hits.Keys == t.hits.Keys && s.scores == t.scores
    && s.searched == t.searched && s.unavailable == t.unavailable
    && (forall key :: key in s.hits ==>
         s.hits[key].collection == t.hits[key].collection && s.hits[key].document == t.hits[key].document)
  }

  lemma RankedKey(s: State, i: nat)
    requires Keyed(s) && i < |Ranking(s)|
    ensures Key(Ranking(s)[i]) in s.hits && Ranking(s)[i] == Scored(s, Key(Ranking(s)[i]))
  {
    hide Ranking, HitBefore;
    RankingSorted(s);
    assert Ranking(s)[i] in Elements(Ranking(s));
    var key :| key in s.hits && Ranking(s)[i] == Scored(s, key);
    assert Key(Scored(s, key)) == Key(s.hits[key]);
  }

  /** They rank alike. */
  lemma AlikeRanking(s: State, t: State)
    requires Alike(s, t)
    ensures |Ranking(t)| == |Ranking(s)|
    ensures forall i :: 0 <= i < |Ranking(s)| ==>
      Key(Ranking(s)[i]) in t.hits && Ranking(t)[i] == Scored(t, Key(Ranking(s)[i]))
  {
    hide Ranking, Key;
    var r := Ranking(s);
    forall i | 0 <= i < |r| ensures Key(r[i]) in t.hits && r[i] == Scored(s, Key(r[i])) {
      RankedKey(s, i);
    }
    var m := seq(|r|, i requires 0 <= i < |r| => Scored(t, Key(r[i])));
    RankingSorted(s);
    RankingSorted(t);
    forall i, j | 0 <= i < j < |m| ensures HitBefore(m[i], m[j]) {
      assert HitBefore(r[i], r[j]);
    }
    MappedPool(s, t, r, m);
    HitOrder();
    SortedListingUnique(HitBefore, m, Ranking(t));
  }

  lemma MappedPool(s: State, t: State, r: seq<Hit>, m: seq<Hit>)
    requires Alike(s, t) && Elements(r) == Pool(s) && |m| == |r|
    requires forall i :: 0 <= i < |r| ==>
      Key(r[i]) in t.hits && r[i] == Scored(s, Key(r[i])) && m[i] == Scored(t, Key(r[i]))
    ensures Elements(m) == Pool(t)
  {
    forall h | h in m ensures h in Pool(t) {
      var i :| 0 <= i < |m| && m[i] == h;
      assert m[i] == Scored(t, Key(r[i]));
    }
    forall key | key in t.hits ensures Scored(t, key) in m {
      assert Scored(s, key) in Pool(s);
      var i :| 0 <= i < |r| && r[i] == Scored(s, key);
      assert Key(r[i]) == key;
      assert m[i] == Scored(t, key);
    }
  }

  lemma ScoredKey(s: State, key: Str)
    requires Keyed(s) && key in s.hits
    ensures Key(Scored(s, key)) == key
  {
    assert Key(Scored(s, key)) == Key(s.hits[key]);
  }

  lemma AlikeTopKeys(q: Query, s: State, t: State)
    requires Alike(s, t)
    ensures TopKeys(q, t) == TopKeys(q, s)
  {
    hide Ranking, Key;
    AlikeRanking(s, t);
    forall i | 0 <= i < |Ranking(s)| ensures Key(Ranking(t)[i]) == Key(Ranking(s)[i]) {
      RankedKey(s, i);
      ScoredKey(t, Key(Ranking(s)[i]));
    }
  }

  /** Their updates are equal exactly if the listed hits look the same. */
  lemma AlikeUpdateIff(q: Query, s: State, t: State)
    requires Alike(s, t)
    ensures UpdateOf(q, s, true) == UpdateOf(q, t, true) <==>
      forall key :: key in TopKeys(q, s) ==> key in s.hits && key in t.hits && Bare(s.hits[key]) == Bare(t.hits[key])
  {
    hide Ranking, Key, Ascending;
    AlikeRanking(s, t);
    var n := Min(q.limit, |Ranking(s)|);
    var x, y := UpdateOf(q, s, true).results, UpdateOf(q, t, true).results;
    forall i | 0 <= i < n
      ensures var key := Key(Ranking(s)[i]);
        key in s.hits && key in t.hits && (x[i] == y[i] <==> Bare(s.hits[key]) == Bare(t.hits[key]))
    {
      RankedKey(s, i);
    }
    if forall key :: key in TopKeys(q, s) ==> key in s.hits && key in t.hits && Bare(s.hits[key]) == Bare(t.hits[key]) {
      forall i | 0 <= i < n ensures x[i] == y[i] {
        assert Key(Ranking(s)[i]) in TopKeys(q, s);
      }
      assert x == y;
    }
  }

  // ---------------------------------------------------------------------------
  // Orders of the same answers

  lemma HeldIsPlain(q: Query, answers: seq<Answer>, key: Str)
    requires PlainKeys(answers) && key in Merged(q, answers).hits
    ensures NulFree(Merged(q, answers).hits[key].collection)
  {
    hide AbsorbAll, NulFree;
    var i := HeldWasOffered(q.requested, answers, key);
    assert answers[i] in answers;
    assert answers[i].outcome.value[First(answers[i].outcome.value, key)] in answers[i].outcome.value;
  }

  lemma KeyedMerge(q: Query, answers: seq<Answer>)
    ensures Keyed(Merged(q, answers))
  {
    AbsorbedKeyed(EMPTY, q.requested, answers);
  }

  lemma PermutedAlike(q: Query, a: seq<Answer>, b: seq<Answer>)
    requires multiset(a) == multiset(b) && PlainKeys(a)
    ensures Alike(Merged(q, a), Merged(q, b)) && PlainKeys(b)
  {
    hide AbsorbAll, TotalPoints, Offers, Shards, NulFree, Key;
    var s, t := Merged(q, a), Merged(q, b);
    KeyedMerge(q, a);
    KeyedMerge(q, b);
    SameElements(a, b);
    assert forall z :: z in a <==> z in Elements(a);
    assert forall z :: z in b <==> z in Elements(b);
    forall key ensures (key in s.hits <==> key in t.hits) && (key in s.scores <==> key in t.scores)
      && (key in s.scores ==> s.scores[key] == t.scores[key])
    {
      ScoresAddUp(q.requested, a, key);
      ScoresAddUp(q.requested, b, key);
      PointsPermute(a, b, key);
      OfferedAlike(a, b, key);
    }
    forall shard ensures (shard in s.searched <==> shard in t.searched)
      && (shard in s.unavailable <==> shard in t.unavailable)
    {
      CoverageOf(q.requested, a, shard);
      CoverageOf(q.requested, b, shard);
    }
    forall key | key in s.hits && key in t.hits
      ensures s.hits[key].collection == t.hits[key].collection && s.hits[key].document == t.hits[key].document
    {
      HeldIsPlain(q, a, key);
      HeldIsPlain(q, b, key);
      KeysIdentify(s.hits[key], t.hits[key]);
    }
    assert s.scores == t.scores && s.searched == t.searched && s.unavailable == t.unavailable;
  }

  lemma OfferedAlike(a: seq<Answer>, b: seq<Answer>, key: Str)
    requires forall z :: z in a <==> z in b
    ensures (exists i :: 0 <= i < |a| && Offers(a[i], key)) <==> (exists i :: 0 <= i < |b| && Offers(b[i], key))
  {
    hide Offers;
    if i :| 0 <= i < |a| && Offers(a[i], key) {
      assert a[i] in b;
    }
    if i :| 0 <= i < |b| && Offers(b[i], key) {
      assert b[i] in a;
    }
  }

  /** Where a key is not disputed, the hit held for it looks the same in every order. */
  lemma UndisputedLooksSame(q: Query, a: seq<Answer>, b: seq<Answer>, key: Str)
    requires multiset(a) == multiset(b) && !Disputed(a, key)
    requires key in Merged(q, a).hits && key in Merged(q, b).hits
    ensures Bare(Merged(q, a).hits[key]) == Bare(Merged(q, b).hits[key])
  {
    hide AbsorbAll, Offers, OfferOf, Less, Bare;
    SameElements(a, b);
    assert forall z :: z in a <==> z in Elements(a);
    assert forall z :: z in b <==> z in Elements(b);
    var i := HeldWasOffered(q.requested, a, key);
    var j := HeldWasOffered(q.requested, b, key);
    assert a[i] in b && b[j] in a;
    var k :| 0 <= k < |b| && b[k] == a[i];
    SmallestNodeHolds(q.requested, b, key, k);
    forall z | z in a && Offers(z, key) ensures !Less(OfferOf(z, key).node, OfferOf(a[i], key).node) {
      var l :| 0 <= l < |a| && a[l] == z;
      SmallestNodeHolds(q.requested, a, key, l);
    }
    LessTotal();
    assert a[i] in a && Smallest(a, a[i], key);
    assert !Rivals(a, a[i], b[j], key);
  }

  /** The final update is the same for every order of the answers if and only if no listed key is disputed. */
  lemma UpdateOrderIff(q: Query, a: seq<Answer>)
    requires PlainKeys(a)
    ensures (forall b :: multiset(b) == multiset(a) ==>
              UpdateOf(q, Merged(q, b), true) == UpdateOf(q, Merged(q, a), true))
       <==> (forall key :: key in TopKeys(q, Merged(q, a)) ==> !Disputed(a, key))
  {
    hide Merged, UpdateOf, TopKeys, Disputed, PlainKeys, Alike;
    if forall key :: key in TopKeys(q, Merged(q, a)) ==> !Disputed(a, key) {
      forall b | multiset(b) == multiset(a) ensures UpdateOf(q, Merged(q, b), true) == UpdateOf(q, Merged(q, a), true) {
        UndisputedUpdate(q, a, b);
      }
    } else {
      var key :| key in TopKeys(q, Merged(q, a)) && Disputed(a, key);
      var b, c := DisputedOrders(q, a, key);
      PermutedAlike(q, a, b);
      PermutedAlike(q, b, c);
      AlikeTopKeys(q, Merged(q, a), Merged(q, b));
      AlikeUpdateIff(q, Merged(q, b), Merged(q, c));
      assert UpdateOf(q, Merged(q, b), true) != UpdateOf(q, Merged(q, c), true);
    }
  }

  lemma UndisputedUpdate(q: Query, a: seq<Answer>, b: seq<Answer>)
    requires PlainKeys(a) && multiset(a) == multiset(b)
    requires forall key :: key in TopKeys(q, Merged(q, a)) ==> !Disputed(a, key)
    ensures UpdateOf(q, Merged(q, b), true) == UpdateOf(q, Merged(q, a), true)
  {
    hide Merged, UpdateOf, Disputed, PlainKeys, Ranking;
    PermutedAlike(q, a, b);
    var s, t := Merged(q, a), Merged(q, b);
    forall key | key in TopKeys(q, s) ensures key in s.hits && key in t.hits && Bare(s.hits[key]) == Bare(t.hits[key]) {
      var i :| 0 <= i < Min(q.limit, |Ranking(s)|) && key == Key(Ranking(s)[i]);
      RankedKey(s, i);
      UndisputedLooksSame(q, a, b, key);
    }
    AlikeUpdateIff(q, s, t);
  }

  /** Two orders that hold visibly different hits for a disputed key. */
  lemma DisputedOrders(q: Query, a: seq<Answer>, key: Str) returns (b: seq<Answer>, c: seq<Answer>)
    requires Disputed(a, key)
    ensures multiset(b) == multiset(a) == multiset(c)
    ensures var s, t := Merged(q, b), Merged(q, c);
      key in s.hits && key in t.hits && Bare(s.hits[key]) != Bare(t.hits[key])
  {
    hide AbsorbAll, Offers, OfferOf, Bare;
    var x, y :| x in a && y in a && Rivals(a, x, y, key);
    assert Smallest(a, y, key);
    b := BroughtForward(q.requested, a, x, key);
    c := BroughtForward(q.requested, a, y, key);
  }
}
