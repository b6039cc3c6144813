/** Every update of a run, not only the last, and which answers a run takes in. */
module FanoutProgress {

  import opened Bytes
  import opened Ordering
  import opened Wrappers
  import opened Fanout
  import opened FanoutRuns

  /** The i-th update shows the merge of the first i + 1 answers; a complete one shows all that was taken in. */
  ghost predicate Progress(q: Query, run: Run) {
    forall i :: 0 <= i < |run.updates| ==> ShowsPart(q, run, i)
  }

  ghost predicate ShowsPart(q: Query, run: Run, i: nat)
    requires i < |run.updates|
  {
    var k := if run.updates[i].complete then |run.absorbed| else i + 1;
    && k <= |run.absorbed|
    && run.updates[i] == UpdateOf(q, AbsorbAll(EMPTY, q.requested, run.absorbed[..k]), run.updates[i].complete)
  }

  /** After any arrivals, there was one update for each answer taken in, as soon as it was, and one more when the
      deadline passed. */
  lemma {:induction false} EveryUpdate(q: Query, nodes: seq<Node>, arrivals: seq<Arrival>)
    requires DistinctIds(nodes) && forall i :: 0 <= i < |arrivals| ==> Genuine(nodes, arrivals[i])
    ensures Progress(q, After(q, nodes, arrivals))
  {
    hide UpdateOf, DistinctIds, Genuine, AbsorbAll, ShowsPart, Step, Inv;
    if arrivals == [] {
      StartShows(q, nodes);
    } else {
      var n := |arrivals| - 1;
      EveryUpdate(q, nodes, arrivals[..n]);
      RunKeeps(q, nodes, arrivals[..n]);
      RunKeeps(q, nodes, arrivals);
      StepShows(q, nodes, After(q, nodes, arrivals[..n]), arrivals[n]);
    }
  }

  lemma StartShows(q: Query, nodes: seq<Node>)
    ensures Progress(q, Start(q, nodes))
  {
    hide UpdateOf;
    assert AbsorbAll(EMPTY, q.requested, []) == EMPTY;
  }

  lemma StepShows(q: Query, nodes: seq<Node>, run: Run, arrival: Arrival)
    requires Inv(q, nodes, run) && Inv(q, nodes, Step(q, run, arrival)) && Progress(q, run)
    ensures Progress(q, Step(q, run, arrival))
  {
    hide UpdateOf, Accounted, Absorb, AbsorbAll, Missing;
    var next := Step(q, run, arrival);
    if next != run {
      assert run.absorbed <= next.absorbed;
      forall i | 0 <= i < |next.updates| ensures ShowsPart(q, next, i) {
        if i < |run.updates| {
          assert ShowsPart(q, run, i);
          assert next.absorbed[..i + 1] == run.absorbed[..i + 1];
        } else {
          assert next.absorbed[..|next.absorbed|] == next.absorbed;
        }
      }
    }
  }

  /** The j-th arrival is the first word from its node, and came before the deadline. */
  ghost predicate FirstWord(arrivals: seq<Arrival>, j: nat) {
    && j < |arrivals| && arrivals[j].Answered?
    && forall i :: 0 <= i < j ==> arrivals[i].Answered? && arrivals[i].answer.node.id != arrivals[j].answer.node.id
  }

  /** What a run has taken in are answers that arrived, or failures of nodes it gave up on at the deadline. */
  ghost predicate TakenIn(arrivals: seq<Arrival>, run: Run) {
    && (forall a :: a in run.absorbed ==> Answered(a) in arrivals || (a.outcome.None? && Expired in arrivals))
    && (forall j :: 0 <= j && FirstWord(arrivals, j) ==> arrivals[j].answer in run.absorbed)
  }

  /** A run takes in the first answer of every node that answers before the deadline, as it is, and nothing that did not
      arrive except the failure of the nodes that did not. */
  lemma {:induction false} TakesFirstWords(q: Query, nodes: seq<Node>, arrivals: seq<Arrival>)
    requires DistinctIds(nodes) && forall i :: 0 <= i < |arrivals| ==> Genuine(nodes, arrivals[i])
    ensures TakenIn(arrivals, After(q, nodes, arrivals))
  {
    hide UpdateOf, DistinctIds, Absorb, AbsorbAll, Inv, TakenIn, Genuine;
    if arrivals == [] {
      NothingTaken(q, nodes);
    } else {
      var n := |arrivals| - 1;
      assert arrivals == arrivals[..n] + [arrivals[n]];
      TakesFirstWords(q, nodes, arrivals[..n]);
      RunKeeps(q, nodes, arrivals[..n]);
      HeardBefore(q, nodes, arrivals[..n]);
      assert Genuine(nodes, arrivals[n]);
      TakesNext(q, nodes, arrivals[..n], After(q, nodes, arrivals[..n]), arrivals[n]);
    }
  }

  lemma NothingTaken(q: Query, nodes: seq<Node>)
    ensures TakenIn([], Start(q, nodes))
  {
    hide UpdateOf;
  }

  /** A node no longer waited for has been heard from, or the deadline has passed. */
  ghost predicate Heard(nodes: seq<Node>, arrivals: seq<Arrival>, run: Run) {
    forall n :: n in nodes && n.id !in run.pending ==>
      || Expired in arrivals
      || exists i :: 0 <= i < |arrivals| && arrivals[i].Answered? && arrivals[i].answer.node.id == n.id
  }

  lemma {:induction false} HeardBefore(q: Query, nodes: seq<Node>, arrivals: seq<Arrival>)
    requires DistinctIds(nodes)
    ensures Heard(nodes, arrivals, After(q, nodes, arrivals))
  {
    hide UpdateOf, Absorb, AbsorbAll;
    if arrivals == [] {
      WaitingFor(nodes);
    } else {
      var n := |arrivals| - 1;
      HeardBefore(q, nodes, arrivals[..n]);
      HeardNext(q, nodes, arrivals[..n], After(q, nodes, arrivals[..n]), arrivals[n]);
      assert arrivals == arrivals[..n] + [arrivals[n]];
    }
  }

  lemma HeardNext(q: Query, nodes: seq<Node>, arrivals: seq<Arrival>, run: Run, arrival: Arrival)
    requires Heard(nodes, arrivals, run)
    ensures Heard(nodes, arrivals + [arrival], Step(q, run, arrival))
  {
    hide UpdateOf, Absorb, AbsorbAll;
    var all, next := arrivals + [arrival], Step(q, run, arrival);
    forall n | n in nodes && n.id !in next.pending
      ensures Expired in all || exists i :: 0 <= i < |all| && all[i].Answered? && all[i].answer.node.id == n.id
    {
      if n.id !in run.pending {
        if i :| 0 <= i < |arrivals| && arrivals[i].Answered? && arrivals[i].answer.node.id == n.id {
          assert all[i] == arrivals[i];
        }
      } else {
        assert all[|arrivals|] == arrival;
      }
    }
  }

  lemma TakesNext(q: Query, nodes: seq<Node>, arrivals: seq<Arrival>, run: Run, arrival: Arrival)
    requires Inv(q, nodes, run) && TakenIn(arrivals, run) && Heard(nodes, arrivals, run) && Genuine(nodes, arrival)
    ensures TakenIn(arrivals + [arrival], Step(q, run, arrival))
  {
    hide UpdateOf, Absorb, AbsorbAll, Accounted, Emitted;
    var all, next := arrivals + [arrival], Step(q, run, arrival);
    forall a | a in next.absorbed ensures Answered(a) in all || (a.outcome.None? && Expired in all) {
      if a in run.absorbed {
        assert Answered(a) in arrivals || (a.outcome.None? && Expired in arrivals);
      }
    }
    forall j: nat | FirstWord(all, j) ensures all[j].answer in next.absorbed {
      if j < |arrivals| {
        EarlierWord(arrivals, arrival, j);
      } else {
        LastWord(nodes, arrivals, run, arrival);
      }
    }
  }

  lemma EarlierWord(arrivals: seq<Arrival>, arrival: Arrival, j: nat)
    requires FirstWord(arrivals + [arrival], j) && j < |arrivals|
    ensures FirstWord(arrivals, j) && (arrivals + [arrival])[j] == arrivals[j]
  {
    var all := arrivals + [arrival];
    forall i | 0 <= i < j ensures arrivals[i].Answered? && arrivals[i].answer.node.id != arrivals[j].answer.node.id {
      assert all[i] == arrivals[i];
    }
  }

  lemma LastWord(nodes: seq<Node>, arrivals: seq<Arrival>, run: Run, arrival: Arrival)
    requires FirstWord(arrivals + [arrival], |arrivals|) && Heard(nodes, arrivals, run) && Genuine(nodes, arrival)
    ensures arrival.Answered? && arrival.answer.node.id in run.pending
  {
    var all := arrivals + [arrival];
    forall i | 0 <= i < |arrivals|
      ensures arrivals[i].Answered? && arrivals[i].answer.node.id != arrival.answer.node.id
    {
      assert all[i] == arrivals[i];
    }
  }
}
