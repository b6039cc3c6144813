/** The order of an update's results, in terms of the scores and names themselves. */
module FanoutRanking {

  import opened Bytes
  import opened Ordering
  import opened Wrappers
  import opened Fanout
  import opened FanoutRuns

  /** Of two hits with different keys, the first has the higher score, or the smaller collection, or document. */
  ghost predicate Ahead(score: real, collection: Str, document: Str, other: real, second: Str, third: Str) {
    || score > other
    || (score == other && Less(collection, second))
    || (score == other && collection == second && Less(document, third))
  }

  ghost predicate AheadOf(a: Hit, b: Hit) {
    Ahead(a.score, a.collection, a.document, b.score, b.collection, b.document)
  }

  lemma BeforeIsAhead()
    ensures forall a: Hit, b: Hit :: HitBefore(a, b) <==> AheadOf(a, b)
  {
    LessTotal();
    hide Less;
  }

  /** An update numbers as many held hits as the limit allows, each once and with the score its key has, in order of
      falling score with ties by collection and then document, and leaves out none that belongs before one listed. */
  lemma UpdateRanks(q: Query, s: State, complete: bool)
    requires Keyed(s)
    ensures var r := UpdateOf(q, s, complete).results;
      && |r| == Min(q.limit, |s.hits|)
      && (forall i :: 0 <= i < |r| ==>
            && Key(r[i]) in s.hits
            && r[i] == s.hits[Key(r[i])].(score := Held(s.scores, Key(r[i])), rank := i + 1))
      && (forall i, j :: 0 <= i < j < |r| ==> AheadOf(r[i], r[j]))
      && (forall key, i :: key in s.hits && 0 <= i < |r| && (forall j :: 0 <= j < |r| ==> Key(r[j]) != key) ==>
            Ahead(r[i].score, r[i].collection, r[i].document,
                  Held(s.scores, key), s.hits[key].collection, s.hits[key].document))
  {
    hide HitBefore, IsTop, Ranking, Pool, Key, Ahead, Less, AheadOf;
    UpdateListsBest(q, s, complete);
    var top :| IsTop(HitBefore, top, q.limit, Pool(s)) && UpdateOf(q, s, complete).results == Numbered(top);
    hide UpdateOf, Numbered;
    PoolSize(s);
    TopFacts(s, top, q.limit);
    var r := Numbered(top);
    forall key, i | key in s.hits && 0 <= i < |r| && (forall j :: 0 <= j < |r| ==> Key(r[j]) != key)
      ensures Ahead(r[i].score, r[i].collection, r[i].document,
                    Held(s.scores, key), s.hits[key].collection, s.hits[key].document)
    {
      UnlistedIsBehind(s, top, q.limit, key, i);
    }
  }

  lemma PoolSize(s: State)
    requires Keyed(s)
    ensures |Pool(s)| == |s.hits|
  {
    ImagesSize(s, s.hits.Keys);
    assert Pool(s) == Images(s, s.hits.Keys);
  }

  ghost function Images(s: State, keys: set<Str>): set<Hit>
    requires keys <= s.hits.Keys
  {
    set key | key in keys :: FanoutRuns.Scored(s, key)
  }

  lemma {:induction false} ImagesSize(s: State, keys: set<Str>)
    requires Keyed(s) && keys <= s.hits.Keys
    ensures |Images(s, keys)| == |keys|
  {
    if keys != {} {
      var key :| key in keys;
      ImagesSize(s, keys - {key});
      assert Images(s, keys) == Images(s, keys - {key}) + {FanoutRuns.Scored(s, key)};
      forall other | other in keys - {key} ensures FanoutRuns.Scored(s, other) != FanoutRuns.Scored(s, key) {
        assert Key(FanoutRuns.Scored(s, other)) == other;
        assert Key(FanoutRuns.Scored(s, key)) == key;
      }
    }
  }

  lemma TopFacts(s: State, top: seq<Hit>, limit: nat)
    requires Keyed(s) && IsTop(HitBefore, top, limit, Pool(s))
    ensures |top| == Min(limit, |Pool(s)|)
    ensures var r := Numbered(top);
      && (forall i :: 0 <= i < |r| ==>
            Key(r[i]) in s.hits && r[i] == s.hits[Key(r[i])].(score := Held(s.scores, Key(r[i])), rank := i + 1))
      && (forall i, j :: 0 <= i < j < |r| ==> AheadOf(r[i], r[j]))
  {
    BeforeIsAhead();
    hide HitBefore, Ahead, Less;
    var r := Numbered(top);
    forall i | 0 <= i < |r|
      ensures Key(r[i]) in s.hits && r[i] == s.hits[Key(r[i])].(score := Held(s.scores, Key(r[i])), rank := i + 1)
    {
      assert top[i] in Elements(top);
      var key :| key in s.hits && top[i] == FanoutRuns.Scored(s, key);
      assert Key(r[i]) == Key(top[i]) == key;
    }
    forall i, j | 0 <= i < j < |r| ensures AheadOf(r[i], r[j]) {
      assert AheadOf(top[i], top[j]);
    }
  }

  lemma UnlistedIsBehind(s: State, top: seq<Hit>, limit: nat, key: Str, i: nat)
    requires IsTop(HitBefore, top, limit, Pool(s)) && key in s.hits && i < |top|
    requires Keyed(s) && forall j :: 0 <= j < |top| ==> Key(Numbered(top)[j]) != key
    ensures Ahead(top[i].score, top[i].collection, top[i].document,
                  Held(s.scores, key), s.hits[key].collection, s.hits[key].document)
  {
    BeforeIsAhead();
    hide HitBefore, Ahead, Less;
    var y := FanoutRuns.Scored(s, key);
    assert Key(y) == key;
    forall j | 0 <= j < |top| ensures top[j] != y {
      assert Key(Numbered(top)[j]) == Key(top[j]);
    }
    assert y !in top;
    assert top[i] in top && y in Pool(s);
  }

  // ---------------------------------------------------------------------------
  // The ranking of merged answers

  /** A node's vote for a key: one over 61 for its first hit, one over 62 for its second, and nothing for a key it does
      not name. Only the first hit under a key votes. */
  lemma VoteOf(hits: seq<Hit>, key: Str, i: nat)
    requires i < |hits| && hits[i].document != [] && hits[i].collection + [0] + hits[i].document == key
    requires forall j :: 0 <= j < i ==> hits[j].document == [] || hits[j].collection + [0] + hits[j].document != key
    ensures Points(hits, key) == 1.0 / (61 + i) as real
  {
    assert Counts(hits[i], key);
    assert First(hits, key) == i;
  }

  lemma NoVote(hits: seq<Hit>, key: Str)
    requires forall j :: 0 <= j < |hits| ==>
      hits[j].document == [] || hits[j].collection + [0] + hits[j].document != key
    ensures Points(hits, key) == 0.0
  {
    forall j | 0 <= j < |hits| ensures !Counts(hits[j], key) {}
  }

  /** The shards a node answers for: its collections that were asked for, all of them when none was named, and the node
      itself when that leaves nothing. */
  lemma ShardNames(node: Node, requested: set<Str>, name: Str)
    ensures name in Shards(node, requested) <==>
      || (exists c :: c in node.collections && (c in requested || requested == {}) && name == node.id + [58] + c)
      || (name == node.id && forall c :: c in node.collections ==> c !in requested && requested != {})
  {
    var named := set i | 0 <= i < |node.collections| && (requested == {} || node.collections[i] in requested) ::
      node.id + [58] + node.collections[i];
    assert forall n :: n in named <==>
      exists c :: c in node.collections && (c in requested || requested == {}) && n == node.id + [58] + c;
    if c :| c in node.collections && (c in requested || requested == {}) {
      assert node.id + [58] + c in named;
    }
  }

  lemma AheadScores(h: Hit, other: real, collection: Str, document: Str)
    requires Ahead(h.score, h.collection, h.document, other, collection, document)
    ensures h.score >= other
  {
  }

  lemma EmptyKeyed()
    ensures Keyed(EMPTY)
  {
  }

  ghost predicate OfferedBySome(answers: seq<Answer>, key: Str) {
    exists k :: 0 <= k < |answers| && Offers(answers[k], key)
  }

  /** After any answers, an update lists the offered keys by their added votes. */
  lemma MergedUpdateRanks(q: Query, answers: seq<Answer>, complete: bool)
    ensures var s := AbsorbAll(EMPTY, q.requested, answers);
      var r := UpdateOf(q, s, complete).results;
      && |r| == Min(q.limit, |s.hits|)
      && (forall i :: 0 <= i < |r| ==>
            && OfferedBySome(answers, Key(r[i]))
            && r[i].score == TotalPoints(answers, Key(r[i])) && r[i].rank == i + 1)
      && (forall i, j :: 0 <= i < j < |r| ==> r[i].score >= r[j].score)
      && (forall key, i ::
            OfferedBySome(answers, key) && 0 <= i < |r| && (forall j :: 0 <= j < |r| ==> Key(r[j]) != key) ==>
              r[i].score >= TotalPoints(answers, key))
  {
    hide AbsorbAll, Offers, TotalPoints, UpdateOf, Key, Ahead, Held, Keyed;
    var s := AbsorbAll(EMPTY, q.requested, answers);
    assert Keyed(s) by { EmptyKeyed(); AbsorbedKeyed(EMPTY, q.requested, answers); }
    UpdateRanks(q, s, complete);
    var r := UpdateOf(q, s, complete).results;
    forall i | 0 <= i < |r|
      ensures OfferedBySome(answers, Key(r[i])) && r[i].score == TotalPoints(answers, Key(r[i])) && r[i].rank == i + 1
    {
      ScoresAddUp(q.requested, answers, Key(r[i]));
    }
    forall key, i | OfferedBySome(answers, key) && 0 <= i < |r| &&
        (forall j :: 0 <= j < |r| ==> Key(r[j]) != key)
      ensures r[i].score >= TotalPoints(answers, key)
    {
      ScoresAddUp(q.requested, answers, key);
      AheadScores(r[i], Held(s.scores, key), s.hits[key].collection, s.hits[key].document);
    }
    forall i, j | 0 <= i < j < |r| ensures r[i].score >= r[j].score {
      assert AheadOf(r[i], r[j]);
      AheadScores(r[i], r[j].score, r[j].collection, r[j].document);
    }
  }
}
