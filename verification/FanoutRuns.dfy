/** Runs of the fan-out loop: answers and the deadline in any order, and the updates they produce. */
module FanoutRuns {

  import opened Bytes
  import opened Ordering
  import opened Wrappers
  import opened Fanout

  datatype Query = Query(limit: nat, requested: set<Str>)

  datatype Update = Update(results: seq<Hit>, searched: seq<Str>, unavailable: seq<Str>, complete: bool)

  // ---------------------------------------------------------------------------
  // Ranking

  predicate HitBefore(a: Hit, b: Hit) {
    if a.score != b.score then a.score > b.score
    else if a.collection != b.collection then Less(a.collection, b.collection)
    else Less(a.document, b.document)
  }

  lemma HitOrder()
    ensures WeakOrder(HitBefore)
    ensures forall a: Hit, b: Hit :: Key(a) != Key(b) ==> HitBefore(a, b) || HitBefore(b, a)
  {
    LessTotal();
    hide Less;
    forall x: Hit, y: Hit, z: Hit | HitBefore(x, y) && HitBefore(y, z) ensures HitBefore(x, z) {}
    forall x: Hit, y: Hit, z: Hit | HitBefore(x, z) ensures HitBefore(x, y) || HitBefore(y, z) {}
  }

  /** Every hit is held under its own key. */
  ghost predicate Keyed(s: State) {
    forall key :: key in s.hits ==> Key(s.hits[key]) == key
  }

  function Scored(s: State, key: Str): Hit
    requires key in s.hits
  {
    s.hits[key].(score := Held(s.scores, key))
  }

  ghost function Pool(s: State): set<Hit> {
    set key | key in s.hits :: Scored(s, key)
  }

  ghost function Ranking(s: State): (r: seq<Hit>)
    ensures |r| == |Pool(s)|
  {
    Sort(HitBefore, Listing(Pool(s)))
  }

  /** Hits with pairwise different keys, once sorted, are strictly sorted. */
  lemma DistinctKeysSortStrictly(s: seq<Hit>)
    requires forall i, j :: 0 <= i < j < |s| ==> Key(s[i]) != Key(s[j])
    ensures StrictlySorted(HitBefore, Sort(HitBefore, s)) && Elements(Sort(HitBefore, s)) == Elements(s)
  {
    hide HitBefore, Key;
    HitOrder();
    SortByKey(HitBefore, Key, s);
  }

  lemma PoolKeysDistinct(s: State, r: seq<Hit>)
    requires Keyed(s) && Distinct(r) && Elements(r) <= Pool(s)
    ensures forall i, j :: 0 <= i < j < |r| ==> Key(r[i]) != Key(r[j])
  {
    forall i, j | 0 <= i < j < |r| ensures Key(r[i]) != Key(r[j]) {
      assert r[i] in Elements(r) && r[j] in Elements(r);
      var k :| k in s.hits && r[i] == Scored(s, k);
      var l :| l in s.hits && r[j] == Scored(s, l);
      assert Key(r[i]) == k && Key(r[j]) == l;
    }
  }

  lemma RankingSorted(s: State)
    requires Keyed(s)
    ensures StrictlySorted(HitBefore, Ranking(s)) && Elements(Ranking(s)) == Pool(s)
  {
    PoolKeysDistinct(s, Listing(Pool(s)));
    DistinctKeysSortStrictly(Listing(Pool(s)));
  }

  /** Whatever order the held hits are collected in, sorting gives the one ranking. */
  lemma RankingIs(s: State, r: seq<Hit>)
    requires Keyed(s) && Distinct(r) && Elements(r) == Pool(s)
    ensures Sort(HitBefore, r) == Ranking(s)
  {
    hide Ranking, Sort, HitBefore, Key, Pool;
    RankingSorted(s);
    PoolKeysDistinct(s, r);
    DistinctKeysSortStrictly(r);
    HitOrder();
    SortedListingUnique(HitBefore, Sort(HitBefore, r), Ranking(s));
  }

  function Numbered(hits: seq<Hit>): (r: seq<Hit>)
    ensures |r| == |hits| && forall i :: 0 <= i < |r| ==> r[i] == hits[i].(rank := i + 1)
  {
    seq(|hits|, i requires 0 <= i < |hits| => hits[i].(rank := i + 1))
  }

  ghost function UpdateOf(q: Query, s: State, complete: bool): (u: Update)
    ensures u.complete == complete
  {
    Update(Numbered(Ranking(s)[..Min(q.limit, |Ranking(s)|)]), Ascending(s.searched), Ascending(s.unavailable),
      complete)
  }

  /** An update lists the best held hits, best first: the results, apart from their ranks, are the top of the pool. */
  lemma UpdateListsBest(q: Query, s: State, complete: bool)
    requires Keyed(s)
    ensures exists top :: IsTop(HitBefore, top, q.limit, Pool(s)) && UpdateOf(q, s, complete).results == Numbered(top)
  {
    hide Ranking, HitBefore, Pool, IsTop, Less;
    HitOrder();
    RankingSorted(s);
    StrictPrefixIsTop(HitBefore, Ranking(s), q.limit);
    var top := Ranking(s)[..Min(q.limit, |Ranking(s)|)];
    assert UpdateOf(q, s, complete).results == Numbered(top);
  }

  lemma {:induction false} AbsorbedKeyed(s: State, requested: set<Str>, answers: seq<Answer>)
    requires Keyed(s)
    ensures Keyed(AbsorbAll(s, requested, answers))
  {
    hide Absorb;
    if answers != [] {
      AbsorbedKeyed(s, requested, answers[..|answers| - 1]);
      AbsorbKeyed(AbsorbAll(s, requested, answers[..|answers| - 1]), requested, answers[|answers| - 1]);
    }
  }

  lemma AbsorbKeyed(s: State, requested: set<Str>, a: Answer)
    requires Keyed(s)
    ensures Keyed(Absorb(s, requested, a))
  {
    hide Shards, MergedScores, Less;
  }

  // ---------------------------------------------------------------------------
  // The loop

  datatype Arrival = Answered(answer: Answer) | Expired

  /** `absorbed` lists what has been taken in; `done` means the loop has returned. */
  datatype Run = Run(pending: map<Str, Node>, absorbed: seq<Answer>, state: State, updates: seq<Update>, done: bool)

  function Waiting(nodes: seq<Node>): map<Str, Node> {
    if nodes == [] then map[] else Waiting(nodes[..|nodes| - 1])[nodes[|nodes| - 1].id := nodes[|nodes| - 1]]
  }

  ghost function Missing(pending: map<Str, Node>): (r: seq<Answer>)
    ensures |r| == |pending|
    ensures forall i :: 0 <= i < |r| ==>
      Ascending(pending.Keys)[i] in pending && r[i] == Answer(pending[Ascending(pending.Keys)[i]], None)
  {
    var ids := Ascending(pending.Keys);
    AscendingIn(pending.Keys);
    seq(|ids|, i requires 0 <= i < |ids| => Answer(pending[ids[i]], None))
  }

  ghost function Start(q: Query, nodes: seq<Node>): Run {
    if nodes == [] then Run(map[], [], EMPTY, [UpdateOf(q, EMPTY, true)], true)
      else Run(Waiting(nodes), [], EMPTY, [], false)
  }

  ghost function Step(q: Query, run: Run, arrival: Arrival): Run {
    if run.done then run
    else
      match arrival
      case Answered(a) =>
        if a.node.id !in run.pending then run
        else
          var pending := run.pending - {a.node.id};
          var state := Absorb(run.state, q.requested, a);
          Run(pending, run.absorbed + [a], state, run.updates + [UpdateOf(q, state, pending == map[])], pending ==
            map[])
      case Expired =>
        var state := AbsorbAll(run.state, q.requested, Missing(run.pending));
        Run(map[], run.absorbed + Missing(run.pending), state, run.updates + [UpdateOf(q, state, true)], true)
  }

  ghost function After(q: Query, nodes: seq<Node>, arrivals: seq<Arrival>): Run {
    if arrivals == [] then Start(q, nodes)
    else Step(q, After(q, nodes, arrivals[..|arrivals| - 1]), arrivals[|arrivals| - 1])
  }

  // ---------------------------------------------------------------------------
  // What every step keeps

  ghost predicate DistinctIds(nodes: seq<Node>) {
    forall i, j :: 0 <= i < j < |nodes| ==> nodes[i].id != nodes[j].id
  }

  /** An answer comes from a node that was asked. */
  ghost predicate Genuine(nodes: seq<Node>, arrival: Arrival) {
    arrival.Answered? ==> arrival.answer.node in nodes
  }

  function NodesOf(answers: seq<Answer>): (r: seq<Node>)
    ensures |r| == |answers| && forall i :: 0 <= i < |r| ==> r[i] == answers[i].node
  {
    seq(|answers|, i requires 0 <= i < |answers| => answers[i].node)
  }

  /** Every node is either waited for or has been taken in, once. */
  ghost predicate Accounted(nodes: seq<Node>, pending: map<Str, Node>, absorbed: seq<Answer>) {
    && DistinctNodes(absorbed)
    && (forall i :: 0 <= i < |absorbed| ==> absorbed[i].node in nodes && absorbed[i].node.id !in pending)
    && (forall id :: id in pending ==> pending[id].id == id && pending[id] in nodes)
    && (forall n :: n in nodes ==> n.id in pending || n in NodesOf(absorbed))
    && |absorbed| + |pending| == |nodes|
  }

  /** Exactly the last update of a finished run is complete, and no update of an unfinished one. */
  ghost predicate Emitted(updates: seq<Update>, done: bool) {
    && (forall i :: 0 <= i < |updates| ==> (updates[i].complete <==> done && i == |updates| - 1))
    && (done ==> updates != [])
  }

  ghost predicate Inv(q: Query, nodes: seq<Node>, run: Run) {
    && Accounted(nodes, run.pending, run.absorbed)
    && run.state == AbsorbAll(EMPTY, q.requested, run.absorbed)
    && Emitted(run.updates, run.done)
    && (run.done <==> run.pending == map[])
    && (if run.done then |run.updates| <= (if nodes == [] then 1 else |nodes|) else |run.updates| == |run.absorbed|)
    && (run.done ==> run.updates[|run.updates| - 1] == UpdateOf(q, run.state, true))
  }

  lemma {:induction false} WaitingFor(nodes: seq<Node>)
    requires DistinctIds(nodes)
    ensures |Waiting(nodes)| == |nodes|
    ensures forall n :: n in nodes ==> n.id in Waiting(nodes)
    ensures forall id :: id in Waiting(nodes) ==> Waiting(nodes)[id].id == id && Waiting(nodes)[id] in nodes
  {
    if nodes != [] {
      var init, last := nodes[..|nodes| - 1], nodes[|nodes| - 1];
      WaitingFor(init);
      assert nodes == init + [last];
      assert Waiting(nodes) == Waiting(init)[last.id := last];
      hide Waiting;
      forall id | id in Waiting(init) ensures id != last.id {
        var i :| 0 <= i < |init| && init[i] == Waiting(init)[id];
        assert nodes[i].id != nodes[|nodes| - 1].id;
      }
    }
  }

  lemma StartKeeps(q: Query, nodes: seq<Node>)
    requires DistinctIds(nodes)
    ensures Inv(q, nodes, Start(q, nodes))
  {
    hide UpdateOf, DistinctIds;
    WaitingFor(nodes);
    hide Waiting;
    assert nodes != [] ==> Waiting(nodes) != map[];
  }

  /** `more` takes some of the nodes out of `pending` and leaves `left`. */
  ghost predicate Takes(pending: map<Str, Node>, more: seq<Answer>, left: map<Str, Node>) {
    && DistinctNodes(more) && |left| + |more| == |pending|
    && (forall i :: 0 <= i < |more| ==>
         more[i].node.id in pending && more[i].node == pending[more[i].node.id] && more[i].node.id !in left)
    && (forall id :: id in left ==> id in pending && left[id] == pending[id])
    && (forall id :: id in pending ==> id in left || pending[id] in NodesOf(more))
  }

  lemma JoinDistinct(nodes: seq<Node>, pending: map<Str, Node>, absorbed: seq<Answer>, more: seq<Answer>,
      left: map<Str, Node>)
    requires Accounted(nodes, pending, absorbed) && Takes(pending, more, left)
    ensures DistinctNodes(absorbed + more)
  {
    var all, m := absorbed + more, |absorbed|;
    forall i, j | 0 <= i < j < |all| ensures all[i].node.id != all[j].node.id {
      if m <= i {
        assert more[i - m].node.id != more[j - m].node.id;
      } else if m <= j {
        assert absorbed[i].node.id !in pending && more[j - m].node.id in pending;
      }
    }
  }

  lemma JoinCovers(nodes: seq<Node>, pending: map<Str, Node>, absorbed: seq<Answer>, more: seq<Answer>,
      left: map<Str, Node>)
    requires DistinctIds(nodes) && Accounted(nodes, pending, absorbed) && Takes(pending, more, left)
    ensures forall n :: n in nodes ==> n.id in left || n in NodesOf(absorbed + more)
  {
    hide DistinctNodes, DistinctIds;
    assert NodesOf(absorbed + more) == NodesOf(absorbed) + NodesOf(more);
    forall n | n in nodes && n.id in pending ensures n == pending[n.id] {
      SameId(nodes, n, pending[n.id]);
    }
  }

  lemma AccountedJoin(nodes: seq<Node>, pending: map<Str, Node>, absorbed: seq<Answer>, more: seq<Answer>,
      left: map<Str, Node>)
    requires DistinctIds(nodes) && Accounted(nodes, pending, absorbed) && Takes(pending, more, left)
    ensures Accounted(nodes, left, absorbed + more)
  {
    hide DistinctNodes, DistinctIds, NodesOf;
    JoinDistinct(nodes, pending, absorbed, more, left);
    JoinCovers(nodes, pending, absorbed, more, left);
  }

  lemma TakesOne(nodes: seq<Node>, pending: map<Str, Node>, absorbed: seq<Answer>, a: Answer)
    requires DistinctIds(nodes) && Accounted(nodes, pending, absorbed) && a.node in nodes && a.node.id in pending
    ensures Takes(pending, [a], pending - {a.node.id})
  {
    hide DistinctIds;
    SameId(nodes, a.node, pending[a.node.id]);
    assert NodesOf([a])[0] == a.node;
    var left := pending - {a.node.id};
    assert left.Keys == pending.Keys - {a.node.id};
    assert |left.Keys| == |left| && |pending.Keys| == |pending|;
  }

  lemma SameId(nodes: seq<Node>, m: Node, n: Node)
    requires DistinctIds(nodes) && m in nodes && n in nodes && m.id == n.id
    ensures m == n
  {
    var i :| 0 <= i < |nodes| && nodes[i] == m;
    var j :| 0 <= j < |nodes| && nodes[j] == n;
    assert !(i < j) && !(j < i);
  }

  lemma EmittedNext(updates: seq<Update>, u: Update)
    requires Emitted(updates, false)
    ensures Emitted(updates + [u], u.complete)
  {
  }

  /** The answers missing from `pending`, in some order. */
  ghost predicate ListsMissing(pending: map<Str, Node>, missing: seq<Answer>) {
    && |missing| == |pending|
    && (forall i :: 0 <= i < |missing| ==>
         missing[i].outcome.None? && missing[i].node.id in pending && missing[i].node == pending[missing[i].node.id])
    && DistinctNodes(missing)
  }

  lemma MissingListed(nodes: seq<Node>, pending: map<Str, Node>, absorbed: seq<Answer>)
    requires Accounted(nodes, pending, absorbed)
    ensures ListsMissing(pending, Missing(pending))
  {
    hide Missing, Ascending, Less;
    var ids, missing := Ascending(pending.Keys), Missing(pending);
    AscendingDistinct(pending.Keys);
    forall i | 0 <= i < |missing| ensures missing[i].node.id == ids[i] && ids[i] in pending {}
  }

  lemma ListedAllMissing(pending: map<Str, Node>, missing: seq<Answer>)
    requires ListsMissing(pending, missing)
    ensures forall id :: id in pending ==> pending[id] in NodesOf(missing)
  {
    var ids := seq(|missing|, i requires 0 <= i < |missing| => missing[i].node.id);
    assert Distinct(ids);
    DistinctCard(ids);
    assert Elements(ids) <= pending.Keys;
    assert |pending.Keys| == |pending|;
    SubsetFull(Elements(ids), pending.Keys);
    forall id | id in pending ensures pending[id] in NodesOf(missing) {
      assert id in Elements(ids);
      var i :| 0 <= i < |ids| && ids[i] == id;
      assert NodesOf(missing)[i] == pending[id];
    }
  }

  lemma TakesAll(pending: map<Str, Node>, missing: seq<Answer>)
    requires ListsMissing(pending, missing)
    ensures Takes(pending, missing, map[])
  {
    ListedAllMissing(pending, missing);
  }

  lemma {:induction false} AbsorbAllJoin(s: State, requested: set<Str>, a: seq<Answer>, b: seq<Answer>)
    ensures AbsorbAll(s, requested, a + b) == AbsorbAll(AbsorbAll(s, requested, a), requested, b)
  {
    hide Absorb;
    if b == [] {
      assert a + b == a;
    } else {
      assert (a + b)[..|a + b| - 1] == a + b[..|b| - 1];
      AbsorbAllJoin(s, requested, a, b[..|b| - 1]);
    }
  }

  lemma StepKeeps(q: Query, nodes: seq<Node>, run: Run, arrival: Arrival)
    requires DistinctIds(nodes) && Inv(q, nodes, run) && Genuine(nodes, arrival)
    ensures Inv(q, nodes, Step(q, run, arrival))
  {
    if !run.done {
      match arrival {
        case Answered(a) =>
          if a.node.id in run.pending {
            AnswerKeeps(q, nodes, run, a);
          }
        case Expired => ExpiryKeeps(q, nodes, run);
      }
    }
  }

  lemma AnswerKeeps(q: Query, nodes: seq<Node>, run: Run, a: Answer)
    requires DistinctIds(nodes) && Inv(q, nodes, run) && !run.done && a.node in nodes && a.node.id in run.pending
    ensures Inv(q, nodes, Step(q, run, Answered(a)))
  {
    var next := Step(q, run, Answered(a));
    hide UpdateOf, Absorb, AbsorbAll, DistinctIds, Emitted, Accounted, Takes;
    TakesOne(nodes, run.pending, run.absorbed, a);
    AccountedJoin(nodes, run.pending, run.absorbed, [a], next.pending);
    AbsorbAllSnoc(EMPTY, q.requested, run.absorbed, a);
    EmittedNext(run.updates, UpdateOf(q, next.state, next.done));
    AccountedSize(nodes, next.pending, next.absorbed);
    AccountedSize(nodes, run.pending, run.absorbed);
    EmittedSome(run.updates, run.done);
  }

  lemma AccountedSize(nodes: seq<Node>, pending: map<Str, Node>, absorbed: seq<Answer>)
    requires Accounted(nodes, pending, absorbed)
    ensures |absorbed| + |pending| == |nodes|
    ensures pending == map[] <==> |absorbed| == |nodes|
  {
  }

  lemma EmittedSome(updates: seq<Update>, done: bool)
    requires Emitted(updates, done)
    ensures done ==> updates != []
  {
  }

  lemma ExpiryKeeps(q: Query, nodes: seq<Node>, run: Run)
    requires DistinctIds(nodes) && Inv(q, nodes, run) && !run.done
    ensures Inv(q, nodes, Step(q, run, Expired))
  {
    var next := Step(q, run, Expired);
    hide UpdateOf, Absorb, AbsorbAll, DistinctIds, Emitted, ListsMissing, Missing, Accounted, Takes;
    MissingListed(nodes, run.pending, run.absorbed);
    TakesAll(run.pending, Missing(run.pending));
    AccountedJoin(nodes, run.pending, run.absorbed, Missing(run.pending), map[]);
    AbsorbAllJoin(EMPTY, q.requested, run.absorbed, Missing(run.pending));
    EmittedNext(run.updates, UpdateOf(q, next.state, true));
    AccountedSize(nodes, run.pending, run.absorbed);
  }

  lemma {:induction false} RunKeeps(q: Query, nodes: seq<Node>, arrivals: seq<Arrival>)
    requires DistinctIds(nodes) && forall i :: 0 <= i < |arrivals| ==> Genuine(nodes, arrivals[i])
    ensures Inv(q, nodes, After(q, nodes, arrivals))
  {
    hide Inv, DistinctIds, Genuine, Step, Start;
    if arrivals == [] {
      StartKeeps(q, nodes);
    } else {
      var n := |arrivals| - 1;
      RunKeeps(q, nodes, arrivals[..n]);
      StepKeeps(q, nodes, After(q, nodes, arrivals[..n]), arrivals[n]);
    }
  }

  // ---------------------------------------------------------------------------
  // Whole runs

  lemma TakenInOnce(nodes: seq<Node>, absorbed: seq<Answer>)
    requires DistinctIds(nodes) && Accounted(nodes, map[], absorbed)
    ensures multiset(NodesOf(absorbed)) == multiset(nodes)
  {
    var taken := NodesOf(absorbed);
    assert Distinct(taken) && Distinct(nodes);
    forall n ensures n in taken <==> n in nodes {}
    assert Elements(taken) == Elements(nodes);
    ListingsPermute(taken, nodes);
  }

  ghost function AllShards(nodes: seq<Node>, requested: set<Str>): set<Str> {
    set n, shard | n in nodes && shard in Shards(n, requested) :: shard
  }

  lemma {:induction false} ShardsOfNodes(answers: seq<Answer>, requested: set<Str>)
    ensures ShardsOf(answers, requested) == AllShards(NodesOf(answers), requested)
  {
    hide Shards;
    if answers != [] {
      var init, last := answers[..|answers| - 1], answers[|answers| - 1];
      ShardsOfNodes(init, requested);
      assert NodesOf(answers) == NodesOf(init) + [last.node];
    }
  }

  /** In every run, whatever the order of answers and deadline: the updates fit the channel, only the last one of a
      finished run is complete, and then every node was taken in exactly once and the searched and unavailable shards
      together are those of all nodes. */
  lemma EveryRun(q: Query, nodes: seq<Node>, arrivals: seq<Arrival>)
    requires DistinctIds(nodes) && forall i :: 0 <= i < |arrivals| ==> Genuine(nodes, arrivals[i])
    ensures var run := After(q, nodes, arrivals);
      && |run.updates| <= |nodes| + 1
      && Emitted(run.updates, run.done)
      && (run.done ==>
           && multiset(NodesOf(run.absorbed)) == multiset(nodes)
           && run.state.searched + run.state.unavailable == AllShards(nodes, q.requested)
           && run.updates[|run.updates| - 1] == UpdateOf(q, run.state, true))
  {
    hide After, Emitted, Accounted, AbsorbAll, UpdateOf, Genuine, DistinctIds, AllShards;
    RunKeeps(q, nodes, arrivals);
    var run := After(q, nodes, arrivals);
    AccountedSize(nodes, run.pending, run.absorbed);
    EmittedSome(run.updates, run.done);
    if run.done {
      TakenInOnce(nodes, run.absorbed);
      CoverageIsComplete(EMPTY, q.requested, run.absorbed);
      ShardsOfNodes(run.absorbed, q.requested);
      SameShards(NodesOf(run.absorbed), nodes, q.requested);
    }
  }

  lemma SameShards(a: seq<Node>, b: seq<Node>, requested: set<Str>)
    requires multiset(a) == multiset(b)
    ensures AllShards(a, requested) == AllShards(b, requested)
  {
    hide Shards;
    SameElements(a, b);
    forall n ensures n in a <==> n in b {
      assert n in a <==> n in Elements(a);
      assert n in b <==> n in Elements(b);
    }
  }

  /** The final update depends only on what each node's outcome was, not on when it came. */
  lemma FinalUpdateDependsOnOutcomes(q: Query, nodes: seq<Node>, a: seq<Arrival>, b: seq<Arrival>)
    requires DistinctIds(nodes)
    requires forall i :: 0 <= i < |a| ==> Genuine(nodes, a[i])
    requires forall i :: 0 <= i < |b| ==> Genuine(nodes, b[i])
    requires var x, y := After(q, nodes, a), After(q, nodes, b);
      x.done && y.done && Elements(x.absorbed) == Elements(y.absorbed) && !Contested(x.absorbed)
    ensures var x, y := After(q, nodes, a), After(q, nodes, b);
      && x.updates != [] && y.updates != []
      && x.updates[|x.updates| - 1] == y.updates[|y.updates| - 1]
  {
    hide After, UpdateOf, Genuine, DistinctIds, AbsorbAll, Contested, Accounted;
    RunKeeps(q, nodes, a);
    RunKeeps(q, nodes, b);
    var x, y := After(q, nodes, a), After(q, nodes, b);
    AbsorbedDistinct(nodes, x.pending, x.absorbed);
    AbsorbedDistinct(nodes, y.pending, y.absorbed);
    ListingsPermute(x.absorbed, y.absorbed);
    ContestedPermutes(x.absorbed, y.absorbed);
    UncontestedPermutes(q.requested, x.absorbed, y.absorbed);
  }

  lemma AbsorbedDistinct(nodes: seq<Node>, pending: map<Str, Node>, absorbed: seq<Answer>)
    requires Accounted(nodes, pending, absorbed)
    ensures Distinct(absorbed)
  {
    NodesDistinct(absorbed);
  }

  lemma NodesDistinct(answers: seq<Answer>)
    requires DistinctNodes(answers)
    ensures Distinct(answers)
  {
    forall i, j | 0 <= i < j < |answers| ensures answers[i] != answers[j] {
      assert answers[i].node.id != answers[j].node.id;
    }
  }

  function Answers(answers: seq<Answer>): (r: seq<Arrival>)
    ensures |r| == |answers| && forall i :: 0 <= i < |r| ==> r[i] == Answered(answers[i])
  {
    seq(|answers|, i requires 0 <= i < |answers| => Answered(answers[i]))
  }

  /** Answers of different nodes are all taken in, as they come. */
  lemma {:induction false} AllTakenIn(q: Query, nodes: seq<Node>, answers: seq<Answer>)
    requires DistinctIds(nodes) && DistinctNodes(answers)
    requires forall i :: 0 <= i < |answers| ==> answers[i].node in nodes
    ensures After(q, nodes, Answers(answers)).absorbed == answers
    decreases |answers|
  {
    hide After, Step, Inv, DistinctIds;
    if answers == [] {
      StartsEmpty(q, nodes);
    } else {
      var n := |answers| - 1;
      assert Answers(answers)[..n] == Answers(answers[..n]);
      FirstAnswers(answers, n);
      AllTakenIn(q, nodes, answers[..n]);
      RunKeeps(q, nodes, Answers(answers[..n]));
      var run := After(q, nodes, Answers(answers[..n]));
      StillWaiting(q, nodes, run, answers);
      NextArrival(q, nodes, Answers(answers), n);
      assert Answers(answers)[..n + 1] == Answers(answers);
      StepTakesIn(q, run, answers[n]);
    }
  }

  lemma StartsEmpty(q: Query, nodes: seq<Node>)
    ensures After(q, nodes, Answers([])).absorbed == []
  {
    hide UpdateOf;
  }

  lemma FirstAnswers(answers: seq<Answer>, n: nat)
    requires n <= |answers| && DistinctNodes(answers)
    ensures DistinctNodes(answers[..n])
  {
  }

  lemma StepTakesIn(q: Query, run: Run, a: Answer)
    requires !run.done && a.node.id in run.pending
    ensures Step(q, run, Answered(a)).absorbed == run.absorbed + [a]
  {
    hide UpdateOf, Absorb;
  }

  lemma NextArrival(q: Query, nodes: seq<Node>, arrivals: seq<Arrival>, i: nat)
    requires i < |arrivals|
    ensures After(q, nodes, arrivals[..i + 1]) == Step(q, After(q, nodes, arrivals[..i]), arrivals[i])
  {
    hide Step;
    assert arrivals[..i + 1][..i] == arrivals[..i];
  }

  lemma StillWaiting(q: Query, nodes: seq<Node>, run: Run, answers: seq<Answer>)
    requires DistinctIds(nodes) && Inv(q, nodes, run) && DistinctNodes(answers) && answers != []
    requires answers[|answers| - 1].node in nodes && run.absorbed == answers[..|answers| - 1]
    ensures answers[|answers| - 1].node.id in run.pending && !run.done
  {
    hide UpdateOf, AbsorbAll, Emitted;
    var n := |answers| - 1;
    forall i | 0 <= i < n ensures NodesOf(run.absorbed)[i] != answers[n].node {
      assert answers[i].node.id != answers[n].node.id;
    }
  }

  /** When every node answers before the deadline, the run finishes, and its final update is the same for every order
      of the answers. */
  lemma AnswerOrderDoesNotMatter(q: Query, nodes: seq<Node>, a: seq<Answer>, b: seq<Answer>)
    requires DistinctIds(nodes) && multiset(NodesOf(a)) == multiset(nodes) && multiset(a) == multiset(b)
    requires DistinctNodes(a) && DistinctNodes(b) && !Contested(a)
    ensures var x, y := After(q, nodes, Answers(a)), After(q, nodes, Answers(b));
      && x.done && y.done && x.updates != [] && y.updates != []
      && x.updates[|x.updates| - 1] == y.updates[|y.updates| - 1]
  {
    hide After, UpdateOf, DistinctIds, DistinctNodes, Contested;
    AskedNodes(nodes, a, a);
    AskedNodes(nodes, a, b);
    FinishedRun(q, nodes, a);
    FinishedRun(q, nodes, b);
    SameElements(a, b);
    FinalUpdateDependsOnOutcomes(q, nodes, Answers(a), Answers(b));
  }

  /** So it is whenever nodes name no other node in their hits. */
  lemma HonestAnswersAgree(q: Query, nodes: seq<Node>, a: seq<Answer>, b: seq<Answer>)
    requires DistinctIds(nodes) && multiset(NodesOf(a)) == multiset(nodes) && multiset(a) == multiset(b)
    requires DistinctNodes(a) && DistinctNodes(b) && HonestAll(a)
    ensures var x, y := After(q, nodes, Answers(a)), After(q, nodes, Answers(b));
      && x.done && y.done && x.updates != [] && y.updates != []
      && x.updates[|x.updates| - 1] == y.updates[|y.updates| - 1]
  {
    hide After, DistinctIds, DistinctNodes, HonestAll, Untied, Contested;
    HonestUntied(a);
    UntiedUncontested(a);
    AnswerOrderDoesNotMatter(q, nodes, a, b);
  }

  /** When every node answers, the final update is that of their answers merged. */
  lemma FinalUpdateOf(q: Query, nodes: seq<Node>, answers: seq<Answer>)
    requires DistinctIds(nodes) && DistinctNodes(answers) && multiset(NodesOf(answers)) == multiset(nodes)
    ensures var run := After(q, nodes, Answers(answers));
      && run.done && run.updates != []
      && run.updates[|run.updates| - 1] == UpdateOf(q, AbsorbAll(EMPTY, q.requested, answers), true)
  {
    hide After, UpdateOf, DistinctIds, DistinctNodes, AbsorbAll, Accounted;
    AskedNodes(nodes, answers, answers);
    FinishedRun(q, nodes, answers);
    RunKeeps(q, nodes, Answers(answers));
  }

  lemma AskedNodes(nodes: seq<Node>, a: seq<Answer>, b: seq<Answer>)
    requires multiset(NodesOf(a)) == multiset(nodes) && multiset(a) == multiset(b)
    ensures |b| == |nodes| && forall i :: 0 <= i < |b| ==> b[i].node in nodes
  {
    assert |multiset(NodesOf(a))| == |a| && |multiset(nodes)| == |nodes| && |multiset(a)| == |a| &&
      |multiset(b)| == |b|;
    SameElements(a, b);
    SameElements(NodesOf(a), nodes);
    forall i | 0 <= i < |b| ensures b[i].node in nodes {
      assert b[i] in Elements(b);
      var j :| 0 <= j < |a| && a[j] == b[i];
      assert NodesOf(a)[j] in Elements(NodesOf(a));
    }
  }

  lemma FinishedRun(q: Query, nodes: seq<Node>, answers: seq<Answer>)
    requires DistinctIds(nodes) && DistinctNodes(answers) && |answers| == |nodes|
    requires forall i :: 0 <= i < |answers| ==> answers[i].node in nodes
    ensures After(q, nodes, Answers(answers)).done && After(q, nodes, Answers(answers)).absorbed == answers
    ensures forall i :: 0 <= i < |answers| ==> Genuine(nodes, Answers(answers)[i])
  {
    hide After, UpdateOf, DistinctIds, AbsorbAll, Emitted;
    AllTakenIn(q, nodes, answers);
    RunKeeps(q, nodes, Answers(answers));
    var run := After(q, nodes, Answers(answers));
    AccountedSize(nodes, run.pending, run.absorbed);
  }

  /** The deadline ends the run at once, whatever is still missing. */
  lemma DeadlineEnds(q: Query, nodes: seq<Node>, arrivals: seq<Arrival>)
    requires DistinctIds(nodes) && forall i :: 0 <= i < |arrivals| ==> Genuine(nodes, arrivals[i])
    ensures var before, after := After(q, nodes, arrivals), After(q, nodes, arrivals + [Expired]);
      && after.done && before.updates <= after.updates
      && after.state.searched == before.state.searched
      && after.state.hits == before.state.hits && after.state.scores == before.state.scores
  {
    hide UpdateOf, Absorb;
    var before := After(q, nodes, arrivals);
    assert (arrivals + [Expired])[..|arrivals|] == arrivals;
    hide After;
    NothingMoreFound(before.state, q.requested, Missing(before.pending));
  }

  lemma {:induction false} NothingMoreFound(s: State, requested: set<Str>, missing: seq<Answer>)
    requires forall i :: 0 <= i < |missing| ==> missing[i].outcome.None?
    ensures var r := AbsorbAll(s, requested, missing);
      r.hits == s.hits && r.scores == s.scores && r.searched == s.searched
  {
    hide Shards;
    if missing != [] {
      NothingMoreFound(s, requested, missing[..|missing| - 1]);
    }
  }
}
