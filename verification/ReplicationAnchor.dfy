/** A weaker guard on catch-ups, for runs that only need one entry per offset: every majority must still meet a replica
    that holds the whole log. It differs from the other guard for even numbers of replicas. */
module ReplicationAnchor {

  import opened Bytes
  import opened Documents
  import opened Ordering
  import opened Replicas
  import opened Replication

  /** A catch-up that keeps what its target had applied, or whose target is not needed to meet every majority. */
  predicate AnchorGuarded(s: State, step: Step) {
    step.CatchUp? && step.source < |s.cluster| && step.target < |s.cluster| ==>
      || KeepsApplied(s.cluster[step.source], s.cluster[step.target], step.catchUpNet)
      || Applied(s.cluster[step.target]) < |s.quorumLog|
      || |Full(s.cluster, |s.quorumLog|)| + Quorum(|s.cluster|) > |s.cluster| + 1
  }

  predicate AnchorGuardedRun(s: State, run: seq<Step>) {
    run == [] || (AnchorGuardedRun(s, run[..|run| - 1]) && AnchorGuarded(Exec(s, run[..|run| - 1]), run[|run| - 1]))
  }

  /** The guard that keeps a majority full is the stronger one. */
  lemma GuardedIsAnchorGuarded(s: State, step: Step)
    requires Guarded(s, step)
    ensures AnchorGuarded(s, step)
  {
    hide KeepsApplied, Full;
  }

  /** A catch-up keeps every majority in touch with the whole log exactly when it is guarded so. */
  lemma CatchUpAnchoredIff(s: State, step: Step)
    requires Anchored(s) && step.CatchUp?
    ensures Anchored(Next(s, step)) <==> AnchorGuarded(s, step)
  {
    hide CatchUpResult, KeepsApplied, ReplicaOf;
    var CatchUp(from, to, net) := step;
    if from < |s.cluster| && to < |s.cluster| {
      var log, t := Mutations(s.quorumLog), Next(s, step);
      CatchUpStaysOnLog(s.cluster[from], s.cluster[to], log, net);
      FullAfterCatchUp(s, from, to, net);
      var f := Full(s.cluster, |log|);
      AppliedWithin(s.cluster[to], log);
      assert to in f <==> Applied(s.cluster[to]) == |log|;
      if KeepsApplied(s.cluster[from], s.cluster[to], net) {
        SubsetSize(f, Full(t.cluster, |log|));
      } else {
        assert |f - {to}| == if to in f then |f| - 1 else |f|;
      }
      assert forall i :: 0 <= i < |t.cluster| && i != to ==> t.cluster[i] == s.cluster[i];
    }
  }

  lemma WriteKeepsAnchored(s: State, step: Step)
    requires Anchored(s) && step.Write?
    ensures Anchored(Next(s, step))
  {
    hide OneLog, Full, AfterWrite, WriteOutcomeOf;
    var Write(self, m, net) := step;
    if self < |s.cluster| {
      if ReachedQuorum(WriteOutcomeOf(s.cluster, self, m, net)) {
        QuorumWriteKeepsSafe(s, self, m, net);
        SafeIsAnchored(Next(s, step));
      } else {
        FailedWriteHasNoEffect(s, self, m, net);
      }
    }
  }

  lemma DiscardKeepsAnchored(s: State, step: Step)
    requires Anchored(s) && step.DiscardHistory?
    ensures Anchored(Next(s, step))
  {
    hide OneLog, Full;
    DiscardKeepsLog(s, step);
  }

  lemma StepAnchoredIff(s: State, step: Step)
    requires Anchored(s)
    ensures Anchored(Next(s, step)) <==> AnchorGuarded(s, step)
  {
    hide Anchored, Next, KeepsApplied, Full;
    match step
    case Write(_, _, _) => WriteKeepsAnchored(s, step);
    case CatchUp(_, _, _) => CatchUpAnchoredIff(s, step);
    case DiscardHistory(_, _) => DiscardKeepsAnchored(s, step);
  }

  lemma InitialAnchored(n: nat)
    requires n > 0
    ensures Anchored(Initial(n))
  {
    InitialSafe(n);
    SafeIsAnchored(Initial(n));
  }

  /** In every run under the weaker guard, at most one entry reaches a quorum at each offset, every replica is on that
      one log, and every majority meets a replica that holds all of it. */
  lemma {:induction false} EveryAnchoredRunHasOneLog(n: nat, run: seq<Step>)
    requires n > 0 && AnchorGuardedRun(Initial(n), run)
    ensures Anchored(Exec(Initial(n), run))
  {
    hide Anchored, AnchorGuarded, Next;
    if run == [] {
      InitialAnchored(n);
    } else {
      EveryAnchoredRunHasOneLog(n, run[..|run| - 1]);
      StepAnchoredIff(Exec(Initial(n), run[..|run| - 1]), run[|run| - 1]);
    }
  }

  /** The weaker guard is exact too, for every majority meeting the whole log. */
  lemma {:induction false} AnchoredThroughoutIff(n: nat, run: seq<Step>)
    requires n > 0
    ensures (forall k :: 0 <= k <= |run| ==> Anchored(Exec(Initial(n), run[..k]))) <==>
      AnchorGuardedRun(Initial(n), run)
  {
    hide Anchored, AnchorGuarded, Next, Initial;
    if run == [] {
      InitialAnchored(n);
      assert run[..0] == [];
    } else {
      var m := |run| - 1;
      AnchoredThroughoutIff(n, run[..m]);
      assert run[..|run|] == run;
      assert forall k :: 0 <= k <= m ==> run[..m][..k] == run[..k];
      if AnchorGuardedRun(Initial(n), run[..m]) {
        EveryAnchoredRunHasOneLog(n, run[..m]);
        StepAnchoredIff(Exec(Initial(n), run[..m]), run[m]);
      }
      assert forall k :: 0 <= k <= |run| ==> k <= m || run[..k] == run;
    }
  }
}
