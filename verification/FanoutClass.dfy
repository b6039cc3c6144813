/** The executor's merge state as an object, and the loop that fills it. */
module Executors {

  import opened Bytes
  import opened Ordering
  import opened Wrappers
  import opened Fanout
  import opened FanoutRuns

  function Requested(trim: Str -> Str, ids: seq<Str>): set<Str> {
    set i | 0 <= i < |ids| :: trim(ids[i])
  }

  /** The part of a node's shards that its first collections contribute. */
  ghost function ShardsUpTo(node: Node, requested: set<Str>, n: nat): set<Str>
    requires n <= |node.collections|
  {
    set i | 0 <= i < n && (requested == {} || node.collections[i] in requested) :: node.id + [58] + node.collections[i]
  }

  lemma ShardsNext(node: Node, requested: set<Str>, n: nat)
    requires n < |node.collections|
    ensures ShardsUpTo(node, requested, n + 1) == ShardsUpTo(node, requested, n) +
      (if requested == {} || node.collections[n] in requested then {node.id + [58] + node.collections[n]} else {})
  {
    var a, b := ShardsUpTo(node, requested, n), ShardsUpTo(node, requested, n + 1);
    forall x | x in b ensures x in a ||
      ((requested == {} || node.collections[n] in requested) && x == node.id + [58] + node.collections[n]) {
      var i :| 0 <= i < n + 1 && (requested == {} || node.collections[i] in requested) &&
        x == node.id + [58] + node.collections[i];
    }
  }

  /** The shards a node stands for in a query, in order. */
  method ShardIds(trim: Str -> Str, node: Node, ids: seq<Str>) returns (shards: seq<Str>)
    ensures Elements(shards) == Shards(node, Requested(trim, ids)) && Sorted(Less, shards)
  {
    hide Less, Sort;
    var requested: set<Str> := {};
    for i := 0 to |ids|
      invariant requested == Requested(trim, ids[..i])
    {
      RequestedNext(trim, ids, i);
      requested := requested + {trim(ids[i])};
    }
    assert ids[..|ids|] == ids;
    shards := [];
    for i := 0 to |node.collections|
      invariant Elements(shards) == ShardsUpTo(node, requested, i)
    {
      ShardsNext(node, requested, i);
      if requested == {} || node.collections[i] in requested {
        ElementsSnoc(shards, node.id + [58] + node.collections[i]);
        shards := shards + [node.id + [58] + node.collections[i]];
      }
    }
    assert |shards| > 0 ==> shards[0] in Elements(shards);
    if |shards| == 0 { shards := [node.id]; }
    SortStrings(shards);
    shards := Sort(Less, shards);
  }

  lemma SortStrings(s: seq<Str>)
    ensures Sorted(Less, Sort(Less, s)) && Elements(Sort(Less, s)) == Elements(s)
  {
    hide Less;
    LessTotal();
    TotalIsWeak(Less);
    SortSorts(Less, s);
    SameElements(s, Sort(Less, s));
  }

  lemma RequestedNext(trim: Str -> Str, ids: seq<Str>, i: nat)
    requires i < |ids|
    ensures Requested(trim, ids[..i + 1]) == Requested(trim, ids[..i]) + {trim(ids[i])}
  {
    var a, b := Requested(trim, ids[..i]), Requested(trim, ids[..i + 1]);
    forall x | x in b ensures x in a || x == trim(ids[i]) {
      var j :| 0 <= j < |ids[..i + 1]| && x == trim(ids[..i + 1][j]);
      assert j < i ==> ids[..i][j] == ids[j];
    }
    forall x | x in a ensures x in b {
      var j :| 0 <= j < |ids[..i]| && x == trim(ids[..i][j]);
      assert ids[..i + 1][j] == ids[j];
    }
    assert ids[..i + 1][i] == ids[i];
  }

  // ---------------------------------------------------------------------------
  // One more hit of an answer

  lemma FirstNext(hits: seq<Hit>, i: nat, key: Str)
    requires i < |hits|
    ensures Has(hits[..i], key) ==> First(hits[..i + 1], key) == First(hits[..i], key) && Has(hits[..i + 1], key)
    ensures !Has(hits[..i], key) ==> First(hits[..i + 1], key) == if Counts(hits[i], key) then i else i + 1
  {
    hide Counts;
    assert hits[..i + 1][..i] == hits[..i];
  }

  /** The hit at `i` is the first of its answer with its key. */
  predicate Fresh(hits: seq<Hit>, i: nat)
    requires i < |hits|
  {
    hits[i].document != [] && Key(hits[i]) !in Keys(hits[..i])
  }

  lemma FirstFresh(hits: seq<Hit>, i: nat, key: Str)
    requires i < |hits|
    ensures Fresh(hits, i) && key == Key(hits[i]) ==>
      First(hits[..i + 1], key) == i && Has(hits[..i + 1], key) && !Has(hits[..i], key)
    ensures !(Fresh(hits, i) && key == Key(hits[i])) ==>
      (Has(hits[..i + 1], key) <==> Has(hits[..i], key)) &&
        (Has(hits[..i], key) ==> First(hits[..i + 1], key) == First(hits[..i], key))
  {
    FirstNext(hits, i, key);
    hide First;
  }

  lemma KeysNext(hits: seq<Hit>, i: nat)
    requires i < |hits|
    ensures Keys(hits[..i + 1]) == Keys(hits[..i]) + (if Fresh(hits, i) then {Key(hits[i])} else {})
  {
    hide Keys, Has, First, Key;
    var before, after := Keys(hits[..i]), Keys(hits[..i + 1]);
    forall key ensures key in after <==> key in before || (Fresh(hits, i) && key == Key(hits[i])) {
      FirstFresh(hits, i, key);
    }
  }

  function WithHit(held: map<Str, Hit>, node: Node, h: Hit): map<Str, Hit> {
    if Key(h) !in held || Less(Owned(h, node).node, held[Key(h)].node) then held[Key(h) := Owned(h, node)] else held
  }

  lemma KeptNext(held: map<Str, Hit>, node: Node, hits: seq<Hit>, i: nat, key: Str)
    requires i < |hits|
    ensures var a, b := MergedHits(held, node, hits[..i]), MergedHits(held, node, hits[..i + 1]);
      var c := if Fresh(hits, i) then WithHit(a, node, hits[i]) else a;
      && (key in b <==> key in c) && (key in b ==> b[key] == c[key])
  {
    FirstFresh(hits, i, key);
    hide Less, Key, First, Fresh, Has;
    HasIsIn(hits[..i], key);
    FreshIsNew(hits, i);
  }

  lemma HasIsIn(hits: seq<Hit>, key: Str)
    ensures Has(hits, key) <==> First(hits, key) < |hits|
  {
  }

  lemma FreshIsNew(hits: seq<Hit>, i: nat)
    requires i < |hits|
    ensures Fresh(hits, i) ==> !Has(hits[..i], Key(hits[i]))
  {
  }

  lemma MergedNext(held: map<Str, Hit>, node: Node, hits: seq<Hit>, i: nat)
    requires i < |hits|
    ensures var a, b := MergedHits(held, node, hits[..i]), MergedHits(held, node, hits[..i + 1]);
      b == if Fresh(hits, i) then WithHit(a, node, hits[i]) else a
  {
    hide MergedHits, WithHit, Fresh;
    var a, b := MergedHits(held, node, hits[..i]), MergedHits(held, node, hits[..i + 1]);
    var c := if Fresh(hits, i) then WithHit(a, node, hits[i]) else a;
    forall key ensures (key in b <==> key in c) && (key in b ==> b[key] == c[key]) {
      KeptNext(held, node, hits, i, key);
    }
  }

  function WithPoints(scores: map<Str, real>, h: Hit, position: nat): map<Str, real> {
    scores[Key(h) := Held(scores, Key(h)) + 1.0 / (RANK_CONSTANT + position + 1) as real]
  }

  lemma ScoreNext(scores: map<Str, real>, hits: seq<Hit>, i: nat)
    requires i < |hits|
    ensures var a, b := MergedScores(scores, hits[..i]), MergedScores(scores, hits[..i + 1]);
      b == if Fresh(hits, i) then WithPoints(a, hits[i], i) else a
  {
    hide MergedScores, Fresh, Has, First, Key;
    var a, b := MergedScores(scores, hits[..i]), MergedScores(scores, hits[..i + 1]);
    var c := if Fresh(hits, i) then WithPoints(a, hits[i], i) else a;
    forall key ensures (key in b <==> key in c) && (key in b ==> b[key] == c[key]) {
      ScoreMerged(scores, hits[..i], key);
      ScoreMerged(scores, hits[..i + 1], key);
      FirstFresh(hits, i, key);
    }
  }

  lemma NothingMerged(held: map<Str, Hit>, scores: map<Str, real>, node: Node)
    ensures MergedHits(held, node, []) == held && MergedScores(scores, []) == scores && Keys([]) == {}
  {
  }

  // ---------------------------------------------------------------------------
  // The merge state

  class MergeState {
    var hits: map<Str, Hit>
    var scores: map<Str, real>
    var searched: set<Str>
    var unavailable: set<Str>

    ghost function Value(): State
      reads this
    {
      State(hits, scores, searched, unavailable)
    }

    constructor ()
      ensures Value() == EMPTY
    {
      hits, scores, searched, unavailable := map[], map[], {}, {};
    }

    /** Takes in a node's hits: the first of each document counts, for its rank and, from a smaller node ID, for its
        text. */
    method Merge(trim: Str -> Str, node: Node, list: seq<Hit>, ids: seq<Str>)
      modifies this
      ensures Value() == Absorb(old(Value()), Requested(trim, ids), Answer(node, Some(list)))
    {
      hide MergedHits, MergedScores, Shards;
      var shards := ShardIds(trim, node, ids);
      searched := searched + Elements(shards);
      MergeHits(node, list);
    }

    method MergeHits(node: Node, list: seq<Hit>)
      modifies this`hits, this`scores
      ensures hits == MergedHits(old(hits), node, list) && scores == MergedScores(old(scores), list)
    {
      hide MergedHits, MergedScores, Keys, Key, Less, Fresh;
      var seen: set<Str> := {};
      NothingMerged(hits, scores, node);
      assert list[..0] == [];
      for i := 0 to |list|
        invariant hits == MergedHits(old(hits), node, list[..i])
        invariant scores == MergedScores(old(scores), list[..i])
        invariant seen == Keys(list[..i])
      {
        MergedNext(old(hits), node, list, i);
        ScoreNext(old(scores), list, i);
        KeysNext(list, i);
        FreshMeans(list, i);
        var hit := list[i];
        var key := Key(hit);
        if hit.document == [] { continue; }
        if key in seen { continue; }
        seen := seen + {key};
        if hit.node == [] { hit := hit.(node := node.id); }
        if key !in hits || Less(hit.node, hits[key].node) {
          hits := hits[key := hit];
        }
        scores := scores[key := (if key in scores then scores[key] else 0.0) + 1.0 / (RANK_CONSTANT + i + 1) as real];
      }
      assert list[..|list|] == list;
    }

    method MarkUnavailable(trim: Str -> Str, node: Node, ids: seq<Str>)
      modifies this
      ensures Value() == Absorb(old(Value()), Requested(trim, ids), Answer(node, None))
    {
      hide Shards;
      var shards := ShardIds(trim, node, ids);
      unavailable := unavailable + Elements(shards);
    }

    /** The current results: scored, sorted, cut to the limit and numbered. */
    method CurrentUpdate(limit: nat, ghost q: Query, complete: bool) returns (u: Update)
      requires Keyed(Value()) && q.limit == limit
      ensures u == UpdateOf(q, Value(), complete)
    {
      hide Sort, Ranking, HitBefore, Key, Ascending, Less, Pool, Keyed;
      ghost var s := Value();
      var results: seq<Hit> := [];
      var rest := hits.Keys;
      assert Collected(s, results, rest) by { NothingCollected(s); }
      while rest != {}
        invariant rest <= hits.Keys && Collected(s, results, rest)
      {
        var key :| key in rest;
        hide Collected;
        CollectNext(s, results, rest, key);
        results := results + [hits[key].(score := if key in scores then scores[key] else 0.0)];
        rest := rest - {key};
      }
      CollectedAll(s, results);
      RankingIs(s, results);
      results := Sort(HitBefore, results);
      if |results| > limit { results := results[..limit]; }
      assert results == Ranking(s)[..Min(limit, |Ranking(s)|)];
      var searchedIds := SortedKeys(searched);
      var unavailableIds := SortedKeys(unavailable);
      var numbered := Number(results);
      return Update(numbered, searchedIds, unavailableIds, complete);
    }
  }

  lemma FreshMeans(hits: seq<Hit>, i: nat)
    requires i < |hits|
    ensures Fresh(hits, i) <==> hits[i].document != [] && Key(hits[i]) !in Keys(hits[..i])
  {
  }

  /** Gives results their ranks. */
  method Number(hits: seq<Hit>) returns (r: seq<Hit>)
    ensures r == Numbered(hits)
  {
    r := hits;
    for i := 0 to |hits|
      invariant |r| == |hits|
      invariant forall j :: 0 <= j < |hits| ==> r[j] == if j < i then hits[j].(rank := j + 1) else hits[j]
    {
      r := r[i := r[i].(rank := i + 1)];
    }
  }

  ghost predicate Collected(s: State, results: seq<Hit>, rest: set<Str>) {
    && Keyed(s) && Distinct(results)
    && (forall i :: 0 <= i < |results| ==>
         Key(results[i]) in s.hits && Key(results[i]) !in rest && results[i] == Scored(s, Key(results[i])))
    && (forall key :: key in s.hits && key !in rest ==> Scored(s, key) in results)
  }

  lemma NothingCollected(s: State)
    requires Keyed(s)
    ensures Collected(s, [], s.hits.Keys)
  {
  }

  lemma CollectNext(s: State, results: seq<Hit>, rest: set<Str>, key: Str)
    requires Collected(s, results, rest) && key in rest && key in s.hits
    ensures Collected(s, results + [Scored(s, key)], rest - {key})
  {
    var next := results + [Scored(s, key)];
    assert Key(Scored(s, key)) == key;
    hide Key;
    forall i, j | 0 <= i < j < |next| ensures next[i] != next[j] {
      assert Key(next[i]) !in rest;
    }
  }

  lemma CollectedAll(s: State, results: seq<Hit>)
    requires Collected(s, results, {})
    ensures Keyed(s) && Distinct(results) && Elements(results) == Pool(s)
  {
    hide Key;
    forall h | h in results ensures h in Pool(s) {
      var i :| 0 <= i < |results| && results[i] == h;
      assert h == Scored(s, Key(results[i]));
    }
  }

  // ---------------------------------------------------------------------------
  // The loop

  ghost predicate ByNode(pending: map<Str, Node>) {
    forall id :: id in pending ==> pending[id].id == id
  }

  lemma {:induction false} DoneStays(q: Query, nodes: seq<Node>, arrivals: seq<Arrival>, i: nat)
    requires i <= |arrivals| && After(q, nodes, arrivals[..i]).done
    ensures After(q, nodes, arrivals) == After(q, nodes, arrivals[..i])
    decreases |arrivals|
  {
    if i == |arrivals| {
      assert arrivals[..i] == arrivals;
    } else {
      assert arrivals[..|arrivals| - 1][..i] == arrivals[..i];
      DoneStays(q, nodes, arrivals[..|arrivals| - 1], i);
    }
  }

  /** Marks every node still waited for as unavailable, in any order. */
  method MarkAll(m: MergeState, trim: Str -> Str, pending: map<Str, Node>, ids: seq<Str>)
    requires ByNode(pending)
    modifies m
    ensures m.Value() == AbsorbAll(old(m.Value()), Requested(trim, ids), Missing(pending))
  {
    hide AbsorbAll, Absorb, Missing;
    ghost var missing: seq<Answer> := [];
    ghost var requested := Requested(trim, ids);
    var rest := pending.Keys;
    assert m.Value() == AbsorbAll(old(m.Value()), requested, missing) by { AbsorbNone(m.Value(), requested); }
    while rest != {}
      invariant rest <= pending.Keys && Marked(pending, missing, rest)
      invariant m.Value() == AbsorbAll(old(m.Value()), requested, missing)
    {
      var id :| id in rest;
      hide Marked;
      MarkNext(pending, missing, rest, id);
      AbsorbAllSnoc(old(m.Value()), requested, missing, Answer(pending[id], None));
      m.MarkUnavailable(trim, pending[id], ids);
      missing := missing + [Answer(pending[id], None)];
      rest := rest - {id};
    }
    MarkedAll(pending, missing);
    OrderDoesNotMatter(old(m.Value()), requested, missing, Missing(pending));
  }

  lemma AbsorbNone(s: State, requested: set<Str>)
    ensures AbsorbAll(s, requested, []) == s
  {
  }

  ghost predicate Marked(pending: map<Str, Node>, missing: seq<Answer>, rest: set<Str>) {
    && ByNode(pending) && DistinctNodes(missing)
    && (forall i :: 0 <= i < |missing| ==>
         missing[i].outcome.None? && missing[i].node.id in pending && missing[i].node.id !in rest &&
           missing[i].node == pending[missing[i].node.id])
    && (forall id :: id in pending && id !in rest ==> Answer(pending[id], None) in missing)
  }

  lemma MarkNext(pending: map<Str, Node>, missing: seq<Answer>, rest: set<Str>, id: Str)
    requires Marked(pending, missing, rest) && id in rest && id in pending
    ensures Marked(pending, missing + [Answer(pending[id], None)], rest - {id})
  {
  }

  lemma MissingDistinct(pending: map<Str, Node>)
    requires ByNode(pending)
    ensures DistinctNodes(Missing(pending))
    ensures forall a :: a in Missing(pending) <==>
      a.outcome.None? && a.node.id in pending && a.node == pending[a.node.id]
  {
    hide Missing, Ascending, Less;
    AscendingDistinct(pending.Keys);
    var ids, missing := Ascending(pending.Keys), Missing(pending);
    forall i | 0 <= i < |missing| ensures missing[i].node.id == ids[i] {}
    forall a: Answer | a.outcome.None? && a.node.id in pending && a.node == pending[a.node.id] ensures a in missing {
      assert a.node.id in Elements(ids);
      var i :| 0 <= i < |ids| && ids[i] == a.node.id;
      assert missing[i] == a;
    }
  }

  lemma MarkedElements(pending: map<Str, Node>, missing: seq<Answer>)
    requires Marked(pending, missing, {})
    ensures Elements(missing) == Elements(Missing(pending))
  {
    hide Missing, DistinctNodes;
    MissingDistinct(pending);
    forall a ensures a in missing <==> a in Missing(pending) {
      if a in missing {
        var i :| 0 <= i < |missing| && missing[i] == a;
      }
    }
  }

  lemma MissingUntied(answers: seq<Answer>)
    requires forall i :: 0 <= i < |answers| ==> answers[i].outcome.None?
    ensures Untied(answers)
  {
    forall a, b, key | a in answers && b in answers ensures !TiedAt(a, b, key) {
      var i :| 0 <= i < |answers| && answers[i] == a;
    }
  }

  lemma MarkedAll(pending: map<Str, Node>, missing: seq<Answer>)
    requires Marked(pending, missing, {})
    ensures Untied(missing) && Untied(Missing(pending))
    ensures multiset(missing) == multiset(Missing(pending))
  {
    hide Missing, DistinctNodes;
    MissingDistinct(pending);
    NodesDistinct(missing);
    NodesDistinct(Missing(pending));
    MarkedElements(pending, missing);
    MissingUntied(missing);
    MissingUntied(Missing(pending));
    ListingsPermute(missing, Missing(pending));
  }

  /** What the loop has in its variables is what the run says. */
  ghost predicate Tracks(q: Query, run: Run, pending: map<Str, Node>, state: State, updates: seq<Update>) {
    && run.pending == pending && run.state == state && run.updates == updates
    && (run.done <==> pending == map[]) && ByNode(pending) && Keyed(state)
  }

  method Await(nodes: seq<Node>) returns (pending: map<Str, Node>)
    ensures pending == Waiting(nodes) && ByNode(pending) && (nodes != [] ==> pending != map[])
  {
    pending := map[];
    for i := 0 to |nodes|
      invariant pending == Waiting(nodes[..i]) && ByNode(pending) && (i > 0 ==> pending != map[])
    {
      assert nodes[..i + 1][..i] == nodes[..i];
      pending := pending[nodes[i].id := nodes[i]];
      assert nodes[i].id in pending;
    }
    assert nodes[..|nodes|] == nodes;
  }

  lemma AnswerStep(q: Query, run: Run, pending: map<Str, Node>, state: State, updates: seq<Update>, a: Answer)
    requires Tracks(q, run, pending, state, updates) && a.node.id in pending
    ensures var next, left := Absorb(state, q.requested, a), pending - {a.node.id};
      Tracks(q, Step(q, run, Answered(a)), left, next, updates + [UpdateOf(q, next, |left| == 0)])
  {
    hide Absorb, UpdateOf, Keyed, AbsorbAll, Missing;
    AbsorbKeyed(state, q.requested, a);
    var left := pending - {a.node.id};
    assert |left| == 0 <==> left == map[];
  }

  lemma ExpiryStep(q: Query, run: Run, pending: map<Str, Node>, state: State, updates: seq<Update>)
    requires Tracks(q, run, pending, state, updates) && pending != map[]
    ensures var next := AbsorbAll(state, q.requested, Missing(pending));
      Tracks(q, Step(q, run, Expired), map[], next, updates + [UpdateOf(q, next, true)])
  {
    hide Absorb, AbsorbAll, UpdateOf, Keyed, Missing;
    AbsorbedKeyed(state, q.requested, Missing(pending));
  }

  /** Takes arrivals as they come until no node is waited for or the deadline has passed. The updates sent are those of
      the run, and the loop has ended when the run has. */
  method Execute(trim: Str -> Str, limit: nat, ids: seq<Str>, nodes: seq<Node>, arrivals: seq<Arrival>)
      returns (updates: seq<Update>, ended: bool)
    ensures var run := After(Query(limit, Requested(trim, ids)), nodes, arrivals);
      updates == run.updates && ended == run.done
  {
    hide Absorb, AbsorbAll, UpdateOf, Missing, Step, Keyed, Requested;
    ghost var q := Query(limit, Requested(trim, ids));
    var m := new MergeState();
    var pending := Await(nodes);
    updates := [];
    assert Keyed(EMPTY) by { EmptyKeyed(); }
    if |nodes| == 0 {
      var u := m.CurrentUpdate(limit, q, true);
      DoneStays(q, nodes, arrivals, 0);
      return [u], true;
    }
    hide Waiting;
    var i := 0;
    ghost var run := Start(q, nodes);
    assert Tracks(q, run, pending, m.Value(), updates);
    while i < |arrivals| && |pending| > 0
      invariant i <= |arrivals| && fresh(m)
      invariant run == After(q, nodes, arrivals[..i])
      invariant Tracks(q, run, pending, m.Value(), updates)
      decreases |arrivals| - i
    {
      NextArrival(q, nodes, arrivals, i);
      ghost var before := m.Value();
      match arrivals[i] {
        case Answered(a) =>
          if a.node.id in pending {
            AnswerStep(q, run, pending, before, updates, a);
            pending := pending - {a.node.id};
            match a.outcome {
              case None => m.MarkUnavailable(trim, a.node, ids);
              case Some(list) => m.Merge(trim, a.node, list, ids);
            }
            assert m.Value() == Absorb(before, q.requested, a);
            var u := m.CurrentUpdate(limit, q, |pending| == 0);
            updates := updates + [u];
          } else {
            IgnoredStep(q, run, a);
          }
        case Expired =>
          ExpiryStep(q, run, pending, before, updates);
          MarkAll(m, trim, pending, ids);
          pending := map[];
          var u := m.CurrentUpdate(limit, q, true);
          updates := updates + [u];
      }
      run := Step(q, run, arrivals[i]);
      i := i + 1;
    }
    if |pending| == 0 {
      DoneStays(q, nodes, arrivals, i);
    } else {
      assert arrivals[..i] == arrivals;
    }
    return updates, |pending| == 0;
  }

  lemma EmptyKeyed()
    ensures Keyed(EMPTY)
  {
  }

  lemma IgnoredStep(q: Query, run: Run, a: Answer)
    requires a.node.id !in run.pending
    ensures Step(q, run, Answered(a)) == run
  {
  }
}
