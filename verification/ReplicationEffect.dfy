/** What a write or a catch-up does to each replica, told by who was reached and not by the calls that did it. */
module ReplicationEffect {

  import opened Bytes
  import opened Documents
  import opened Ordering
  import opened Replicas
  import opened Replication

  // ---------------------------------------------------------------------------
  // One replica

  lemma ReplicaOfPrefix(r: Replica, log: seq<Mutation>)
    requires ReplicaOf(r, log)
    ensures Applied(r) <= |log| && ReplicaOf(r, log[..Applied(r)])
  {
    var prefix := log[..Applied(r)];
    assert prefix[..r.committed] == log[..r.committed];
    forall i | 0 <= i < |r.entries|
      ensures r.entries[i] == EntryAt(prefix, Applied(r) - |r.entries| + i + 1)
    {
      assert r.entries[i] == EntryAt(log, Applied(r) - |r.entries| + i + 1);
    }
  }

  /** A replica appends the entry right after what it applied, and no other. */
  lemma AppendsNextOnly(r: Replica, e: Entry)
    requires Applied(r) < MAX_OFFSET
    ensures CanAppend(r, e) <==> e.offset == Applied(r) + 1
  {
  }

  /** A replica commits through any offset between its commit and what it applied, and no other; its image is then the
      fold of the log through that offset. */
  lemma CommitsThrough(r: Replica, log: seq<Mutation>, offset: nat)
    requires ReplicaOf(r, log)
    ensures CanCommit(r, offset) <==> r.committed <= offset <= Applied(r)
    ensures CanCommit(r, offset) ==>
      var t := Commit(r, offset);
      && t.committed == offset <= |log| && t.documents == Fold(map[], log[..offset])
      && t.entries == r.entries && t.floor == r.floor
  {
    if CanCommit(r, offset) {
      hide Fold, Stretch;
      CommitKeeps(r, log, offset);
    }
  }

  /** A replica serves all that follows an offset at or above its floor, and nothing below it. */
  lemma ServesHistory(r: Replica, log: seq<Mutation>, after: nat)
    requires ReplicaOf(r, log) && after <= Applied(r)
    ensures HistoryAvailable(r, after) <==> r.floor <= after
    ensures r.floor <= after ==> |EntriesAfter(r.entries, after)| == Applied(r) - after
    ensures r.floor <= after ==> forall i :: 0 <= i < Applied(r) - after ==>
      EntriesAfter(r.entries, after)[i] == Entry(after + i + 1, log[after + i])
  {
    if r.floor <= after {
      var start := Applied(r) - |r.entries|;
      EntriesAfterIsSuffix(r.entries, log, start, after);
      forall i | 0 <= i < Applied(r) - after
        ensures EntriesAfter(r.entries, after)[i] == Entry(after + i + 1, log[after + i])
      {
        assert r.entries[after - start + i] == EntryAt(log, start + (after - start + i) + 1);
      }
    }
  }

  // ---------------------------------------------------------------------------
  // A write

  /** The smallest number of replicas that is more than half. */
  lemma QuorumIsLeastMajority(n: nat)
    ensures 2 * Quorum(n) > n && 2 * (Quorum(n) - 1) <= n
  {
  }

  /** Those who take the entry: the primary, and the reached peers that have applied as much as it has. */
  function Level(c: Cluster, self: nat, reach: set<nat>): set<nat>
    requires self < |c|
  {
    set i | 0 <= i < |c| && (i == self || (i in reach && Applied(c[i]) == Applied(c[self])))
  }

  lemma AcknowledgedIsLevel(s: State, self: nat, m: Mutation, reach: set<nat>)
    requires OneLog(s) && self < |s.cluster| && Applied(s.cluster[self]) < MAX_OFFSET
    ensures Acknowledged(s.cluster, self, NewEntry(s.cluster, self, m), reach) == Level(s.cluster, self, reach)
  {
    hide ReplicaOf;
    forall i | 0 <= i < |s.cluster|
      ensures CanAppend(s.cluster[i], NewEntry(s.cluster, self, m)) <==>
        Applied(s.cluster[i]) == Applied(s.cluster[self])
    {
      AppliedWithin(s.cluster[i], Mutations(s.quorumLog));
    }
  }

  /** A write succeeds exactly if its own calls get through and more than half of the replicas take the entry. */
  lemma WrittenIff(s: State, self: nat, m: Mutation, net: WriteNet)
    requires OneLog(s) && self < |s.cluster|
    ensures var a := Applied(s.cluster[self]);
      WriteOutcomeOf(s.cluster, self, m, net) == Written(a + 1) <==>
        && net.status && net.localAppend && net.localCommit && a < MAX_OFFSET
        && 2 * |Level(s.cluster, self, net.reach)| > |s.cluster|
    ensures WriteOutcomeOf(s.cluster, self, m, net).Written? ==>
      WriteOutcomeOf(s.cluster, self, m, net) == Written(Applied(s.cluster[self]) + 1)
  {
    var log := Mutations(s.quorumLog);
    CommittedWithin(s.cluster[self], log);
    hide ReplicaOf, Acknowledged, Level;
    if Applied(s.cluster[self]) < MAX_OFFSET {
      AcknowledgedIsLevel(s, self, m, net.reach);
    }
  }

  lemma CommittedWithin(r: Replica, log: seq<Mutation>)
    requires ReplicaOf(r, log)
    ensures r.committed <= Applied(r) <= |log|
  {
  }

  /** A replica that took the entry and was told to commit it. */
  lemma TakesAndCommits(r: Replica, log: seq<Mutation>, e: Entry)
    requires ReplicaOf(r, log) && e.offset == Applied(r) + 1
    ensures var t := Append(r, e);
      && CanCommit(t, e.offset) && Applied(t) == e.offset && t.committed == r.committed && t.documents == r.documents
      && Applied(Commit(t, e.offset)) == e.offset && Commit(t, e.offset).committed == e.offset
      && Applied(r) <= |log| && Commit(t, e.offset).documents == Fold(map[], log[..Applied(r)] + [e.mutation])
  {
    var upTo := log[..Applied(r)];
    var longer := upTo + [e.mutation];
    ReplicaOfPrefix(r, log);
    ReplicaOfExtended(r, upTo, [e.mutation]);
    AppendKeeps(r, longer, e);
    CommitKeeps(Append(r, e), longer, e.offset);
    assert longer[..e.offset] == longer;
    hide Fold, Stretch, ApplyRange;
  }

  /** The replica a write leaves in place `i`. */
  ghost predicate WrittenAt(before: Replica, after: Replica, log: seq<Mutation>, m: Mutation, took: bool,
      commits: bool)
  {
    if !took then after == before
    else
      && Applied(after) == Applied(before) + 1 && Applied(before) <= |log|
      && (!commits ==> after.committed == before.committed && after.documents == before.documents)
      && (commits ==> after.committed == Applied(after))
      && (commits ==> after.documents == Fold(map[], log[..Applied(before)] + [m]))
  }

  lemma OneWritten(r: Replica, log: seq<Mutation>, e: Entry, took: bool, commits: bool)
    requires ReplicaOf(r, log) && (took ==> e.offset == Applied(r) + 1)
    ensures var t := if took then Append(r, e) else r;
      var end := if took && commits && CanCommit(t, e.offset) then Commit(t, e.offset) else t;
      WrittenAt(r, end, log, e.mutation, took, commits)
  {
    if took {
      hide ReplicaOf, Fold, Commit;
      TakesAndCommits(r, log, e);
    }
  }

  lemma AfterWriteAt(c: seq<Replica>, self: nat, m: Mutation, net: WriteNet, i: nat)
    requires self < |c| && i < |c| && ReachedQuorum(WriteOutcomeOf(c, self, m, net))
    ensures var e := NewEntry(c, self, m);
      var acks := Acknowledged(c, self, e, net.reach);
      var t := if i in acks then Append(c[i], e) else c[i];
      var told := WriteOutcomeOf(c, self, m, net).Written? && (i == self || (i in acks && i in net.commits));
      AfterWrite(c, self, m, net)[i] == if told && CanCommit(t, e.offset) then Commit(t, e.offset) else t
  {
    hide Acknowledged, Commit, Append, CanCommit, NewEntry;
  }

  /** A write that reached its quorum: the primary and the reached peers level with it have the entry; of them the
      primary and those that the commit reaches are committed through it and show the log up to it, even if they had
      missed commits before; nothing else changes. When the primary's own commit fails, no commit changes. */
  lemma WriteEffect(s: State, self: nat, m: Mutation, net: WriteNet, i: nat)
    requires OneLog(s) && self < |s.cluster| && i < |s.cluster|
    requires ReachedQuorum(WriteOutcomeOf(s.cluster, self, m, net))
    ensures var outcome := WriteOutcomeOf(s.cluster, self, m, net);
      var took := i in Level(s.cluster, self, net.reach);
      WrittenAt(s.cluster[i], AfterWrite(s.cluster, self, m, net)[i], Mutations(s.quorumLog), m, took,
                outcome.Written? && (i == self || i in net.commits))
  {
    var c, log, e := s.cluster, Mutations(s.quorumLog), NewEntry(s.cluster, self, m);
    AppliedWithin(c[self], log);
    AcknowledgedIsLevel(s, self, m, net.reach);
    var took := i in Level(c, self, net.reach);
    var commits := WriteOutcomeOf(c, self, m, net).Written? && (i == self || i in net.commits);
    assert took ==> Applied(c[i]) == Applied(c[self]);
    hide ReplicaOf, Acknowledged, Commit, Append, CanCommit, WrittenAt, AfterWrite, WriteOutcomeOf;
    AfterWriteAt(c, self, m, net, i);
    OneWritten(c[i], log, e, took, commits);
  }

  // ---------------------------------------------------------------------------
  // A catch-up

  /** A catch-up completes exactly if the target is not ahead and every call that it needs gets through. */
  lemma CatchUpCompletesIff(source: Replica, sl: seq<Mutation>, target: Replica, tl: seq<Mutation>, net: CatchUpNet)
    requires CommitsAgree(source, sl, target, tl)
    ensures CatchUpResult(source, target, net).0.CaughtUp? <==>
      && net.sourceStatus && net.targetStatus && target.committed <= source.committed
      && (target.committed < source.committed ==>
           && (Applied(target) > target.committed ==> net.rollback) && net.entries
           && if source.floor <= target.committed
              then net.appends >= source.committed - target.committed && net.commit
              else net.snapshot && net.install)
  {
    if net.sourceStatus && net.targetStatus && target.committed < source.committed
       && (net.rollback || Applied(target) == target.committed) {
      CleanOnSource(source, sl, target, tl);
      if HistoryAvailable(source, target.committed) {
        ReplayFromSource(source, Clean(target), sl, net.appends);
      }
    }
    hide ReplicaOf, Fold, Stretch, Replay, Clean, Commit;
  }
}
