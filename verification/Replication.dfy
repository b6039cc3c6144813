/** Quorum writes and catch-up over one fixed replica set, as a transition system.

    A step is one whole `Write` or `CatchUp`; the network decides, per call, which calls fail. A failed
    call has no effect on its replica and a rollback issued by `Write` succeeds. */
module Replication {

  import opened Bytes
  import opened Documents
  import opened Ordering
  import opened Replicas

  type Cluster = seq<Replica>

  /** Which calls of one `Write` get through. `reach` and `commits` name replicas by index. */
  datatype WriteNet = WriteNet(status: bool, localAppend: bool, reach: set<nat>, localCommit: bool, commits: set<nat>)

  datatype WriteOutcome =
    | StatusFailed
    | Exhausted
    | AppendFailed
    | QuorumUnavailable
    | CommitFailed(pending: nat)
    | Written(offset: nat)

  /** Which calls of one `CatchUp` get through; `appends` of the replayed entries do. */
  datatype CatchUpNet = CatchUpNet(
    sourceStatus: bool, targetStatus: bool, rollback: bool, entries: bool,
    snapshot: bool, install: bool, appends: nat, commit: bool)

  datatype CatchUpOutcome = Failed | TargetAhead | CaughtUp

  function Quorum(n: nat): nat { n / 2 + 1 }

  // ---------------------------------------------------------------------------
  // Write

  function Acknowledged(c: Cluster, self: nat, e: Entry, reach: set<nat>): set<nat> {
    set i | 0 <= i < |c| && (i == self || (i in reach && CanAppend(c[i], e)))
  }

  function AppendAt(c: Cluster, at: set<nat>, e: Entry): (r: Cluster)
    ensures |r| == |c|
  {
    seq(|c|, i requires 0 <= i < |c| => if i in at then Append(c[i], e) else c[i])
  }

  function RollbackAt(c: Cluster, at: set<nat>, offset: nat): (r: Cluster)
    ensures |r| == |c|
  {
    seq(|c|, i requires 0 <= i < |c| => if i in at && CanRollback(c[i], offset) then Rollback(c[i], offset) else c[i])
  }

  function CommitAt(c: Cluster, at: set<nat>, offset: nat): (r: Cluster)
    ensures |r| == |c|
  {
    seq(|c|, i requires 0 <= i < |c| => if i in at && CanCommit(c[i], offset) then Commit(c[i], offset) else c[i])
  }

  function NewEntry(c: Cluster, self: nat, m: Mutation): Entry
    requires self < |c|
  {
    Entry(Applied(c[self]) + 1, m)
  }

  function WriteOutcomeOf(c: Cluster, self: nat, m: Mutation, net: WriteNet): WriteOutcome
    requires self < |c|
  {
    var e := NewEntry(c, self, m);
    if !net.status then StatusFailed
    else if Applied(c[self]) == MAX_OFFSET then Exhausted
    else if !net.localAppend || !CanAppend(c[self], e) then AppendFailed
    else if |Acknowledged(c, self, e, net.reach)| < Quorum(|c|) then QuorumUnavailable
    else if !net.localCommit || !CanCommit(Append(c[self], e), e.offset) then CommitFailed(e.offset)
    else Written(e.offset)
  }

  predicate ReachedQuorum(outcome: WriteOutcome) {
    outcome.Written? || outcome.CommitFailed?
  }

  function AfterWrite(c: Cluster, self: nat, m: Mutation, net: WriteNet): (r: Cluster)
    requires self < |c|
    ensures |r| == |c|
  {
    var e := NewEntry(c, self, m);
    var acks := Acknowledged(c, self, e, net.reach);
    match WriteOutcomeOf(c, self, m, net)
    case StatusFailed => c
    case Exhausted => c
    case AppendFailed => c
    case QuorumUnavailable => RollbackAt(AppendAt(c, acks, e), acks, e.offset)
    case CommitFailed(_) => AppendAt(c, acks, e)
    case Written(_) => CommitAt(AppendAt(c, acks, e), (acks * net.commits) + {self}, e.offset)
  }

  // ---------------------------------------------------------------------------
  // CatchUp

  /** Replays entries up to `limit`, stopping when `appends` calls have succeeded. */
  function Replay(target: Replica, entries: seq<Entry>, limit: nat, appends: nat): (bool, Replica)
    decreases |entries|
  {
    if entries == [] || entries[0].offset > limit then (true, target)
    else if appends == 0 || !CanAppend(target, entries[0]) then (false, target)
    else Replay(Append(target, entries[0]), entries[1..], limit, appends - 1)
  }

  /** What the target keeps once its uncommitted tail is dropped. */
  function Clean(target: Replica): Replica {
    if Applied(target) > target.committed then Rollback(target, target.committed + 1) else target
  }

  function CatchUpResult(source: Replica, target: Replica, net: CatchUpNet): (CatchUpOutcome, Replica) {
    if !net.sourceStatus || !net.targetStatus then (Failed, target)
    else if target.committed > source.committed then (TargetAhead, target)
    else if target.committed == source.committed then (CaughtUp, target)
    else
      var tail := Applied(target) > target.committed;
      if tail && !(net.rollback && CanRollback(target, target.committed + 1)) then (Failed, target)
      else
        var clean := Clean(target);
        if !net.entries then (Failed, clean)
        else if !HistoryAvailable(source, target.committed) then
          if !net.snapshot || !net.install then (Failed, clean)
          else (CaughtUp, Install(clean, source.committed, source.documents))
        else
          var (ok, replayed) := Replay(clean, EntriesAfter(source.entries, target.committed), source.committed,
            net.appends);
          if !ok || !net.commit || !CanCommit(replayed, source.committed) then (Failed, replayed)
          else (CaughtUp, Commit(replayed, source.committed))
  }

  // ---------------------------------------------------------------------------
  // Runs

  datatype Step =
    | Write(self: nat, mutation: Mutation, writeNet: WriteNet)
    | CatchUp(source: nat, target: nat, catchUpNet: CatchUpNet)
    | DiscardHistory(replica: nat, floor: nat)

  /** A cluster, and every entry that has reached a quorum, in the order it did. */
  datatype State = State(cluster: Cluster, quorumLog: seq<Entry>)

  function Initial(n: nat): State {
    State(seq(n, _ => EMPTY), [])
  }

  function Next(s: State, step: Step): (r: State)
    ensures |r.cluster| == |s.cluster|
  {
    match step
    case Write(self, m, net) =>
      if self >= |s.cluster| then s
      else
        var outcome := WriteOutcomeOf(s.cluster, self, m, net);
        State(AfterWrite(s.cluster, self, m, net),
              if ReachedQuorum(outcome)
              then s.quorumLog + [NewEntry(s.cluster, self, m)] else s.quorumLog)
    case CatchUp(from, to, net) =>
      if from >= |s.cluster| || to >= |s.cluster| then s
      else s.(cluster := s.cluster[to := CatchUpResult(s.cluster[from], s.cluster[to], net).1])
    case DiscardHistory(i, floor) =>
      if i < |s.cluster| && s.cluster[i].floor <= floor <= s.cluster[i].committed
      then s.(cluster := s.cluster[i := s.cluster[i].(floor := floor)])
      else s
  }

  function Exec(s: State, run: seq<Step>): (r: State)
    ensures |r.cluster| == |s.cluster|
  {
    if run == [] then s else Next(Exec(s, run[..|run| - 1]), run[|run| - 1])
  }

  /** Whether a catch-up leaves the target with all it had applied, told by the two statuses and by which calls get
      through: there is nothing to do, there is no tail to drop, the drop itself fails, or the source's commit covers
      the tail and enough of it comes back. A failed commit at the end does no harm. */
  predicate KeepsApplied(source: Replica, target: Replica, net: CatchUpNet) {
    || !net.sourceStatus || !net.targetStatus || source.committed <= target.committed
    || Applied(target) == target.committed || !net.rollback
    || (&& Applied(target) <= source.committed && net.entries
        && if HistoryAvailable(source, target.committed) then Applied(target) - target.committed <= net.appends
           else net.snapshot && net.install)
  }

  /** The target of the catch-up is not needed for the majority that holds the whole log. */
  predicate Spare(s: State, target: nat)
    requires target < |s.cluster|
  {
    Applied(s.cluster[target]) < |s.quorumLog| || |Full(s.cluster, |s.quorumLog|)| > Quorum(|s.cluster|)
  }

  /** A catch-up that keeps what its target had applied, or whose target can be spared. */
  predicate Guarded(s: State, step: Step) {
    step.CatchUp? && step.source < |s.cluster| && step.target < |s.cluster| ==>
      KeepsApplied(s.cluster[step.source], s.cluster[step.target], step.catchUpNet) || Spare(s, step.target)
  }

  predicate GuardedRun(s: State, run: seq<Step>) {
    run == [] || (GuardedRun(s, run[..|run| - 1]) && Guarded(Exec(s, run[..|run| - 1]), run[|run| - 1]))
  }

  // ---------------------------------------------------------------------------
  // Safety

  function Mutations(entries: seq<Entry>): (r: seq<Mutation>)
    ensures |r| == |entries|
    ensures forall i :: 0 <= i < |r| ==> r[i] == entries[i].mutation
  {
    seq(|entries|, i requires 0 <= i < |entries| => entries[i].mutation)
  }

  /** One entry per offset: the i-th entry to reach a quorum has offset i+1. */
  ghost predicate OneEntryPerOffset(log: seq<Entry>) {
    forall i :: 0 <= i < |log| ==> log[i].offset == i + 1
  }

  /** The replicas that hold all of a log of length `n`. */
  function Full(c: Cluster, n: nat): set<nat> {
    set i | 0 <= i < |c| && Applied(c[i]) == n
  }

  /** At most one entry reached a quorum at each offset, and every replica is on that one log. */
  ghost predicate OneLog(s: State) {
    && OneEntryPerOffset(s.quorumLog)
    && |s.quorumLog| <= MAX_OFFSET
    && (forall i :: 0 <= i < |s.cluster| ==> ReplicaOf(s.cluster[i], Mutations(s.quorumLog)))
  }

  /** And a majority holds all of it. */
  ghost predicate Safe(s: State) {
    OneLog(s) && |Full(s.cluster, |s.quorumLog|)| >= Quorum(|s.cluster|)
  }

  /** And every majority meets the replicas that hold all of it. */
  ghost predicate Anchored(s: State) {
    OneLog(s) && |Full(s.cluster, |s.quorumLog|)| + Quorum(|s.cluster|) > |s.cluster|
  }

  lemma SafeIsAnchored(s: State)
    requires Safe(s)
    ensures Anchored(s)
  {
    hide OneLog, Full;
  }

  lemma {:induction false} SubsetCard(n: nat, s: set<nat>)
    requires forall i :: i in s ==> i < n
    ensures |s| <= n
  {
    if n > 0 {
      SubsetCard(n - 1, s - {n - 1});
      assert s <= (s - {n - 1}) + {n - 1};
    } else {
      assert s == {};
    }
  }

  lemma LargeSetsMeet(n: nat, a: set<nat>, b: set<nat>)
    requires forall i :: i in a + b ==> i < n
    requires |a| + |b| > n
    ensures a * b != {}
  {
    SubsetCard(n, a + b);
    assert |a + b| + |a * b| == |a| + |b|;
  }

  /** Two majorities of the same replica set meet. */
  lemma QuorumsIntersect(n: nat, a: set<nat>, b: set<nat>)
    requires forall i :: i in a + b ==> i < n
    requires |a| >= Quorum(n) && |b| >= Quorum(n)
    ensures a * b != {}
  {
    LargeSetsMeet(n, a, b);
  }

  /** A replica acknowledges only the entry right after everything it applied. */
  lemma AcknowledgedAreLevel(s: State, self: nat, e: Entry, reach: set<nat>)
    requires OneLog(s) && self < |s.cluster|
    requires e.offset == Applied(s.cluster[self]) + 1 && Applied(s.cluster[self]) != MAX_OFFSET
    ensures forall i :: i in Acknowledged(s.cluster, self, e, reach) ==>
      Applied(s.cluster[i]) == Applied(s.cluster[self])
  {
  }

  /** Only a primary that holds the whole log can reach a quorum. */
  lemma QuorumNeedsWholeLog(s: State, self: nat, m: Mutation, reach: set<nat>)
    requires Anchored(s) && self < |s.cluster|
    requires Applied(s.cluster[self]) != MAX_OFFSET
    requires |Acknowledged(s.cluster, self, NewEntry(s.cluster, self, m), reach)| >= Quorum(|s.cluster|)
    ensures Applied(s.cluster[self]) == |s.quorumLog|
  {
    var acks := Acknowledged(s.cluster, self, NewEntry(s.cluster, self, m), reach);
    AcknowledgedAreLevel(s, self, NewEntry(s.cluster, self, m), reach);
    var full := Full(s.cluster, |s.quorumLog|);
    LargeSetsMeet(|s.cluster|, acks, full);
    var i :| i in acks * full;
  }

  lemma AppendAtKeeps(c: Cluster, log: seq<Mutation>, at: set<nat>, e: Entry)
    requires forall i :: 0 <= i < |c| ==> ReplicaOf(c[i], log)
    requires forall i :: i in at && i < |c| ==> Applied(c[i]) == |log|
    requires e.offset == |log| + 1
    ensures forall i :: 0 <= i < |c| ==> ReplicaOf(AppendAt(c, at, e)[i], log + [e.mutation])
    ensures forall i :: 0 <= i < |c| && i in at ==> Applied(AppendAt(c, at, e)[i]) == |log| + 1
  {
    forall i | 0 <= i < |c|
      ensures ReplicaOf(AppendAt(c, at, e)[i], log + [e.mutation])
      ensures i in at ==> Applied(AppendAt(c, at, e)[i]) == |log| + 1
    {
      ReplicaOfExtended(c[i], log, [e.mutation]);
      if i in at {
        AppendKeeps(c[i], log + [e.mutation], e);
      }
    }
  }

  lemma CommitAtKeeps(c: Cluster, log: seq<Mutation>, at: set<nat>, offset: nat)
    requires forall i :: 0 <= i < |c| ==> ReplicaOf(c[i], log)
    ensures forall i :: 0 <= i < |c| ==> ReplicaOf(CommitAt(c, at, offset)[i], log)
    ensures forall i :: 0 <= i < |c| ==> Applied(CommitAt(c, at, offset)[i]) == Applied(c[i])
  {
    forall i | 0 <= i < |c|
      ensures ReplicaOf(CommitAt(c, at, offset)[i], log)
      ensures Applied(CommitAt(c, at, offset)[i]) == Applied(c[i])
    {
      if i in at && CanCommit(c[i], offset) {
        CommitKeeps(c[i], log, offset);
      }
    }
  }

  lemma AppendThenRollback(c: Cluster, log: seq<Mutation>, at: set<nat>, e: Entry)
    requires forall i :: 0 <= i < |c| ==> ReplicaOf(c[i], log)
    requires forall i :: i in at && i < |c| ==> Applied(c[i]) + 1 == e.offset
    ensures RollbackAt(AppendAt(c, at, e), at, e.offset) == c
  {
    forall i | 0 <= i < |c|
      ensures RollbackAt(AppendAt(c, at, e), at, e.offset)[i] == c[i]
    {
      if i in at {
        RollbackUndoesAppend(c[i], log, e);
      }
    }
  }

  /** A write that misses its quorum leaves every replica exactly as it was. */
  lemma FailedWriteHasNoEffect(s: State, self: nat, m: Mutation, net: WriteNet)
    requires OneLog(s) && self < |s.cluster|
    requires !ReachedQuorum(WriteOutcomeOf(s.cluster, self, m, net))
    ensures AfterWrite(s.cluster, self, m, net) == s.cluster
  {
    if WriteOutcomeOf(s.cluster, self, m, net).QuorumUnavailable? {
      var e := NewEntry(s.cluster, self, m);
      AcknowledgedAreLevel(s, self, e, net.reach);
      hide ReplicaOf, RollbackAt, AppendAt, Acknowledged;
      AppendThenRollback(s.cluster, Mutations(s.quorumLog), Acknowledged(s.cluster, self, e, net.reach), e);
    }
  }

  lemma WriteKeepsSafe(s: State, step: Step)
    requires Safe(s) && step.Write?
    ensures Safe(Next(s, step))
  {
    var Write(self, m, net) := step;
    if self < |s.cluster| {
      if ReachedQuorum(WriteOutcomeOf(s.cluster, self, m, net)) {
        QuorumWriteKeepsSafe(s, self, m, net);
      } else {
        FailedWriteHasNoEffect(s, self, m, net);
      }
    }
  }

  lemma QuorumWriteOnCluster(c: Cluster, log: seq<Mutation>, self: nat, m: Mutation, net: WriteNet)
    requires self < |c| && Applied(c[self]) == |log|
    requires forall i :: 0 <= i < |c| ==> ReplicaOf(c[i], log)
    requires forall i :: i in Acknowledged(c, self, NewEntry(c, self, m), net.reach) ==> Applied(c[i]) == |log|
    requires ReachedQuorum(WriteOutcomeOf(c, self, m, net))
    ensures forall i :: 0 <= i < |c| ==> ReplicaOf(AfterWrite(c, self, m, net)[i], log + [m])
    ensures Acknowledged(c, self, NewEntry(c, self, m), net.reach) <= Full(AfterWrite(c, self, m, net), |log| + 1)
  {
    hide ReplicaOf, Applied;
    var e := NewEntry(c, self, m);
    var acks := Acknowledged(c, self, e, net.reach);
    AppendAtKeeps(c, log, acks, e);
    CommitAtKeeps(AppendAt(c, acks, e), log + [m], (acks * net.commits) + {self}, e.offset);
  }

  /** A write that reaches its quorum leaves a majority with the whole log, even where only every majority met one. */
  lemma QuorumWriteKeepsSafe(s: State, self: nat, m: Mutation, net: WriteNet)
    requires Anchored(s) && self < |s.cluster|
    requires ReachedQuorum(WriteOutcomeOf(s.cluster, self, m, net))
    ensures Safe(Next(s, Write(self, m, net)))
  {
    hide ReplicaOf, AfterWrite, Full, CanAppend;
    var e := NewEntry(s.cluster, self, m);
    var log := Mutations(s.quorumLog);
    QuorumNeedsWholeLog(s, self, m, net.reach);
    AcknowledgedAreLevel(s, self, e, net.reach);
    QuorumWriteOnCluster(s.cluster, log, self, m, net);
    MutationsSnoc(s.quorumLog, e);
    SubsetSize(Acknowledged(s.cluster, self, e, net.reach), Full(AfterWrite(s.cluster, self, m, net), |log| + 1));
  }

  lemma MutationsSnoc(entries: seq<Entry>, e: Entry)
    ensures Mutations(entries + [e]) == Mutations(entries) + [e.mutation]
  {
  }

  // ---------------------------------------------------------------------------
  // Catch-up

  /** Replay from a clean target reaches the limit unless a call fails, and stays on the log either way. */
  lemma {:induction false} ReplayKeeps(target: Replica, log: seq<Mutation>, entries: seq<Entry>, limit: nat,
      appends: nat)
    requires ReplicaOf(target, log) && |log| <= MAX_OFFSET
    requires Applied(target) <= limit <= Applied(target) + |entries| <= |log|
    requires Stretch(entries, log, Applied(target))
    ensures var (ok, r) := Replay(target, entries, limit, appends);
      && ReplicaOf(r, log) && r.committed == target.committed
      && Applied(r) == Applied(target) + Min(appends, limit - Applied(target))
      && (ok <==> Applied(r) == limit)
    decreases |entries|
  {
    hide ReplicaOf;
    if entries != [] {
      FirstOfStretch(entries, log, Applied(target));
    }
    if entries != [] && entries[0].offset <= limit && appends != 0 {
      AppendKeeps(target, log, entries[0]);
      hide Stretch, Applied;
      ReplayKeeps(Append(target, entries[0]), log, entries[1..], limit, appends - 1);
    }
  }

  lemma FirstOfStretch(entries: seq<Entry>, log: seq<Mutation>, start: nat)
    requires Stretch(entries, log, start) && entries != []
    ensures entries[0] == EntryAt(log, start + 1) && Stretch(entries[1..], log, start + 1)
  {
    forall i | 0 <= i < |entries[1..]| ensures entries[1..][i] == EntryAt(log, start + 1 + i + 1) {
      assert entries[i + 1] == EntryAt(log, start + (i + 1) + 1);
    }
  }

  lemma CleanKeeps(target: Replica, log: seq<Mutation>)
    requires ReplicaOf(target, log)
    ensures ReplicaOf(Clean(target), log) && Applied(Clean(target)) == target.committed == Clean(target).committed
  {
    if Applied(target) > target.committed {
      RollbackKeeps(target, log, target.committed + 1);
    }
  }

  lemma ReplayFromSource(source: Replica, clean: Replica, log: seq<Mutation>, appends: nat)
    requires ReplicaOf(source, log) && ReplicaOf(clean, log) && |log| <= MAX_OFFSET
    requires Applied(clean) == clean.committed <= source.committed && HistoryAvailable(source, clean.committed)
    ensures var (ok, r) := Replay(clean, EntriesAfter(source.entries, clean.committed), source.committed, appends);
      && ReplicaOf(r, log) && r.committed == clean.committed
      && Applied(r) == clean.committed + Min(appends, source.committed - clean.committed)
      && (ok <==> Applied(r) == source.committed)
  {
    SourceSuffix(source, log, clean.committed);
    hide ReplicaOf, Replay, Stretch, EntriesAfter;
    ReplayKeeps(clean, log, EntriesAfter(source.entries, clean.committed), source.committed, appends);
  }

  /** Retained history after an offset is the stretch of the log that follows it. */
  lemma SourceSuffix(source: Replica, log: seq<Mutation>, after: nat)
    requires ReplicaOf(source, log) && HistoryAvailable(source, after) && after <= source.committed
    ensures var entries := EntriesAfter(source.entries, after);
      Stretch(entries, log, after) && source.committed <= after + |entries| <= |log|
  {
    EntriesAfterIsSuffix(source.entries, log, Applied(source) - |source.entries|, after);
  }

  /** The committed prefixes of two replicas agree as far as the target's goes. Their tails may differ. */
  ghost predicate CommitsAgree(source: Replica, sl: seq<Mutation>, target: Replica, tl: seq<Mutation>) {
    && ReplicaOf(source, sl) && ReplicaOf(target, tl) && |sl| <= MAX_OFFSET
    && (target.committed <= source.committed ==>
         target.committed <= |tl| && tl[..target.committed] == sl[..target.committed])
  }

  /** Without its tail, the target is a replica of the source's log. */
  lemma CleanOnSource(source: Replica, sl: seq<Mutation>, target: Replica, tl: seq<Mutation>)
    requires CommitsAgree(source, sl, target, tl) && target.committed <= source.committed
    ensures ReplicaOf(Clean(target), sl) && Applied(Clean(target)) == target.committed == Clean(target).committed
  {
    CleanKeeps(target, tl);
    var clean := Clean(target);
    var start := Applied(clean) - |clean.entries|;
    forall i | 0 <= i < |clean.entries| ensures clean.entries[i] == EntryAt(sl, start + i + 1) {
      assert tl[..target.committed][start + i] == sl[..target.committed][start + i];
    }
  }

  /** What a catch-up that has something to do leaves behind, wherever it stops. */
  lemma CatchUpOnSource(source: Replica, sl: seq<Mutation>, target: Replica, tl: seq<Mutation>, net: CatchUpNet)
    requires CommitsAgree(source, sl, target, tl) && net.sourceStatus && net.targetStatus
    requires target.committed < source.committed && (net.rollback || Applied(target) == target.committed)
    ensures var (outcome, r) := CatchUpResult(source, target, net);
      && ReplicaOf(r, sl) && r.committed == (if outcome.CaughtUp? then source.committed else target.committed)
      && Applied(r) ==
           (if !net.entries then target.committed
            else if !HistoryAvailable(source, target.committed)
            then if net.snapshot && net.install then source.committed else target.committed
            else target.committed + Min(net.appends, source.committed - target.committed))
  {
    CleanOnSource(source, sl, target, tl);
    var clean := Clean(target);
    if HistoryAvailable(source, target.committed) {
      ReplayFromSource(source, clean, sl, net.appends);
      var (ok, r) := Replay(clean, EntriesAfter(source.entries, target.committed), source.committed, net.appends);
      if ok {
        CommitKeeps(r, sl, source.committed);
      }
    } else {
      assert ReplicaOf(Install(clean, source.committed, source.documents), sl);
    }
  }

  /** When the committed prefixes agree, a completed catch-up leaves the target at the source's commit, on the source's
      log, with the image of the source's committed log, whatever tail it had; one that stops earlier leaves the target
      as it was or on the source's log at its own commit; no commit is undone. */
  lemma CatchUpKeeps(source: Replica, sl: seq<Mutation>, target: Replica, tl: seq<Mutation>, net: CatchUpNet)
    requires CommitsAgree(source, sl, target, tl)
    ensures var (outcome, r) := CatchUpResult(source, target, net);
      && (r == target || (ReplicaOf(r, sl) && r.committed >= target.committed))
      && (outcome.CaughtUp? ==> r.committed == source.committed && r.documents == Fold(map[], sl[..source.committed]))
      && (outcome.CaughtUp? && target.committed < source.committed ==>
           ReplicaOf(r, sl) && Applied(r) == source.committed)
      && (outcome.TargetAhead? <==> net.sourceStatus && net.targetStatus && target.committed > source.committed)
      && (target.committed >= source.committed ==> r == target)
  {
    hide Fold, Stretch, Replay, Commit, Rollback;
    if net.sourceStatus && net.targetStatus && target.committed < source.committed
       && (net.rollback || Applied(target) == target.committed) {
      CatchUpOnSource(source, sl, target, tl, net);
      if CatchUpResult(source, target, net).0.CaughtUp? {
        CaughtUpApplies(source, sl, target, tl, net);
      }
    }
  }

  lemma CaughtUpApplies(source: Replica, sl: seq<Mutation>, target: Replica, tl: seq<Mutation>, net: CatchUpNet)
    requires CommitsAgree(source, sl, target, tl) && target.committed < source.committed
    requires CatchUpResult(source, target, net).0.CaughtUp?
    ensures Applied(CatchUpResult(source, target, net).1) == source.committed
  {
    CatchUpOnSource(source, sl, target, tl, net);
    CleanOnSource(source, sl, target, tl);
    if HistoryAvailable(source, target.committed) {
      ReplayFromSource(source, Clean(target), sl, net.appends);
    }
  }

  /** Whatever its outcome, a catch-up keeps all that the target had applied exactly under the condition on statuses
      and failing calls. */
  lemma CatchUpKeepsAppliedIff(source: Replica, sl: seq<Mutation>, target: Replica, tl: seq<Mutation>, net: CatchUpNet)
    requires CommitsAgree(source, sl, target, tl)
    ensures Applied(CatchUpResult(source, target, net).1) >= Applied(target) <==> KeepsApplied(source, target, net)
  {
    hide Fold, Stretch, Replay, Commit, Rollback;
    if net.sourceStatus && net.targetStatus && target.committed < source.committed
       && (net.rollback || Applied(target) == target.committed) {
      CatchUpOnSource(source, sl, target, tl, net);
    }
  }

  lemma OneLogAgrees(source: Replica, target: Replica, log: seq<Mutation>)
    requires ReplicaOf(source, log) && ReplicaOf(target, log) && |log| <= MAX_OFFSET
    ensures CommitsAgree(source, log, target, log)
  {
  }

  /** Between replicas of one log, the result is one too. */
  lemma CatchUpStaysOnLog(source: Replica, target: Replica, log: seq<Mutation>, net: CatchUpNet)
    requires ReplicaOf(source, log) && ReplicaOf(target, log) && |log| <= MAX_OFFSET
    ensures ReplicaOf(CatchUpResult(source, target, net).1, log)
  {
    hide CatchUpResult, ReplicaOf;
    OneLogAgrees(source, target, log);
    CatchUpKeeps(source, log, target, log, net);
  }

  lemma FullAfterCatchUp(s: State, from: nat, to: nat, net: CatchUpNet)
    requires OneLog(s) && from < |s.cluster| && to < |s.cluster|
    ensures var n, t := |s.quorumLog|, Next(s, CatchUp(from, to, net));
      && (KeepsApplied(s.cluster[from], s.cluster[to], net) ==> Full(s.cluster, n) <= Full(t.cluster, n))
      && (!KeepsApplied(s.cluster[from], s.cluster[to], net) ==> Full(t.cluster, n) == Full(s.cluster, n) - {to})
  {
    hide CatchUpResult, KeepsApplied, ReplicaOf;
    var log, source, target := Mutations(s.quorumLog), s.cluster[from], s.cluster[to];
    CatchUpStaysOnLog(source, target, log, net);
    OneLogAgrees(source, target, log);
    CatchUpKeepsAppliedIff(source, log, target, log, net);
    AppliedWithin(target, log);
    AppliedWithin(CatchUpResult(source, target, net).1, log);
  }

  lemma AppliedWithin(r: Replica, log: seq<Mutation>)
    requires ReplicaOf(r, log)
    ensures Applied(r) <= |log|
  {
  }

  /** A catch-up keeps the cluster safe exactly when it is guarded. */
  lemma CatchUpSafeIff(s: State, step: Step)
    requires Safe(s) && step.CatchUp?
    ensures Safe(Next(s, step)) <==> Guarded(s, step)
  {
    hide CatchUpResult, KeepsApplied, ReplicaOf;
    var CatchUp(from, to, net) := step;
    if from < |s.cluster| && to < |s.cluster| {
      var log, t := Mutations(s.quorumLog), Next(s, step);
      CatchUpStaysOnLog(s.cluster[from], s.cluster[to], log, net);
      FullAfterCatchUp(s, from, to, net);
      var f := Full(s.cluster, |log|);
      AppliedWithin(s.cluster[to], log);
      assert to in f <==> Applied(s.cluster[to]) == |log|;
      if KeepsApplied(s.cluster[from], s.cluster[to], net) {
        SubsetSize(f, Full(t.cluster, |log|));
      } else {
        assert |f - {to}| == if to in f then |f| - 1 else |f|;
      }
      assert forall i :: 0 <= i < |t.cluster| && i != to ==> t.cluster[i] == s.cluster[i];
    }
  }

  lemma DiscardKeepsLog(s: State, step: Step)
    requires OneLog(s) && step.DiscardHistory?
    ensures OneLog(Next(s, step))
    ensures Full(Next(s, step).cluster, |s.quorumLog|) == Full(s.cluster, |s.quorumLog|)
  {
    var t := Next(s, step);
    var DiscardHistory(i, floor) := step;
    if t != s {
      assert ReplicaOf(t.cluster[i], Mutations(s.quorumLog));
    }
    hide ReplicaOf;
    assert forall i :: 0 <= i < |s.cluster| ==> Applied(t.cluster[i]) == Applied(s.cluster[i]);
  }

  lemma DiscardKeepsSafe(s: State, step: Step)
    requires Safe(s) && step.DiscardHistory?
    ensures Safe(Next(s, step))
  {
    hide OneLog, Full;
    DiscardKeepsLog(s, step);
  }

  lemma InitialSafe(n: nat)
    requires n > 0
    ensures Safe(Initial(n))
  {
    FullInitially(n);
  }

  lemma {:induction false} FullInitially(n: nat)
    ensures |Full(Initial(n).cluster, 0)| == n
  {
    if n > 0 {
      FullInitially(n - 1);
      assert Full(Initial(n).cluster, 0) == Full(Initial(n - 1).cluster, 0) + {n - 1};
    } else {
      assert Full(Initial(n).cluster, 0) == {};
    }
  }

  lemma StepKeepsSafe(s: State, step: Step)
    requires Safe(s) && Guarded(s, step)
    ensures Safe(Next(s, step))
  {
    hide Safe, Guarded, Next;
    match step
    case Write(_, _, _) => WriteKeepsSafe(s, step);
    case CatchUp(_, _, _) => CatchUpSafeIff(s, step);
    case DiscardHistory(_, _) => DiscardKeepsSafe(s, step);
  }

  /** Every state of every guarded run: at most one entry ever reaches a quorum at each offset, every replica holds
      a stretch of that one log and the fold of its committed prefix, and a majority holds all of it. */
  lemma {:induction false} EveryRunIsSafe(n: nat, run: seq<Step>)
    requires n > 0 && GuardedRun(Initial(n), run)
    ensures Safe(Exec(Initial(n), run))
  {
    hide Safe, Guarded, Next;
    if run == [] {
      InitialSafe(n);
    } else {
      var before := run[..|run| - 1];
      EveryRunIsSafe(n, before);
      StepKeepsSafe(Exec(Initial(n), before), run[|run| - 1]);
    }
  }

  /** The guard is exact: a run is safe all along if and only if every catch-up in it is guarded. */
  lemma {:induction false} SafeThroughoutIff(n: nat, run: seq<Step>)
    requires n > 0
    ensures (forall k :: 0 <= k <= |run| ==> Safe(Exec(Initial(n), run[..k]))) <==> GuardedRun(Initial(n), run)
  {
    hide Safe, Guarded, Next;
    if GuardedRun(Initial(n), run) {
      forall k | 0 <= k <= |run| ensures Safe(Exec(Initial(n), run[..k])) {
        GuardedPrefix(Initial(n), run, k);
        EveryRunIsSafe(n, run[..k]);
      }
    } else {
      var before, step := run[..|run| - 1], run[|run| - 1];
      assert run[..|run|] == run;
      if !GuardedRun(Initial(n), before) {
        SafeThroughoutIff(n, before);
        var k :| 0 <= k <= |before| && !Safe(Exec(Initial(n), before[..k]));
        assert before[..k] == run[..k];
      } else {
        EveryRunIsSafe(n, before);
        UnguardedBreaks(Exec(Initial(n), before), step);
        assert !Safe(Exec(Initial(n), run[..|run|]));
      }
    }
  }

  lemma UnguardedBreaks(s: State, step: Step)
    requires Safe(s) && !Guarded(s, step)
    ensures !Safe(Next(s, step))
  {
    hide Safe, Next, KeepsApplied, Spare;
    CatchUpSafeIff(s, step);
  }

  lemma {:induction false} QuorumLogGrows(s: State, run: seq<Step>, k: nat)
    requires k <= |run|
    ensures Exec(s, run[..k]).quorumLog <= Exec(s, run).quorumLog
  {
    if k < |run| {
      QuorumLogGrows(s, run[..|run| - 1], k);
      assert run[..|run| - 1][..k] == run[..k];
    } else {
      assert run[..k] == run;
    }
  }

  /** `m` is the one mutation ever chosen at `offset`: no other entry reached a quorum there, each replica that still
      lists that offset lists `m`, each replica that committed it shows the image of a log holding `m` there, and a
      majority of replicas have applied it. */
  ghost predicate ChosenAt(s: State, offset: nat, m: Mutation) {
    var log := Mutations(s.quorumLog);
    && 0 < offset <= |log| && log[offset - 1] == m
    && (forall e :: e in s.quorumLog && e.offset == offset ==> e.mutation == m)
    && (forall i, j :: 0 <= i < |s.cluster| && 0 <= j < |s.cluster[i].entries| ==>
          s.cluster[i].entries[j].offset == offset ==> s.cluster[i].entries[j].mutation == m)
    && (forall i :: 0 <= i < |s.cluster| ==>
          s.cluster[i].committed <= |log| && s.cluster[i].documents == Fold(map[], log[..s.cluster[i].committed]))
    && |set i | 0 <= i < |s.cluster| && Applied(s.cluster[i]) >= offset| >= Quorum(|s.cluster|)
  }

  lemma SafeMeansChosen(s: State, offset: nat)
    requires Safe(s) && 0 < offset <= |s.quorumLog|
    ensures ChosenAt(s, offset, s.quorumLog[offset - 1].mutation)
  {
    var holders := set i | 0 <= i < |s.cluster| && Applied(s.cluster[i]) >= offset;
    SubsetSize(Full(s.cluster, |s.quorumLog|), holders);
  }

  function OutcomeAt(n: nat, run: seq<Step>, k: nat): WriteOutcome
    requires k < |run| && run[k].Write? && run[k].self < n
  {
    WriteOutcomeOf(Exec(Initial(n), run[..k]).cluster, run[k].self, run[k].mutation, run[k].writeNet)
  }

  /** A write acknowledged to its caller is never lost, whatever writes and guarded catch-ups follow. */
  lemma AcknowledgedWriteIsDurable(n: nat, run: seq<Step>, k: nat)
    requires n > 0 && GuardedRun(Initial(n), run)
    requires k < |run| && run[k].Write? && run[k].self < n
    requires OutcomeAt(n, run, k).Written?
    ensures ChosenAt(Exec(Initial(n), run), OutcomeAt(n, run, k).offset, run[k].mutation)
  {
    hide Safe, ChosenAt, GuardedRun, Next, Exec, WriteOutcomeOf;
    var before := Exec(Initial(n), run[..k]);
    var Write(self, m, net) := run[k];
    GuardedPrefix(Initial(n), run, k);
    EveryRunIsSafe(n, run[..k]);
    EveryRunIsSafe(n, run);
    WrittenIsNext(before, self, m, net);
    ExecNext(Initial(n), run, k);
    QuorumLogGrows(Initial(n), run, k + 1);
    SafeMeansChosen(Exec(Initial(n), run), |before.quorumLog| + 1);
  }

  /** A successful write adds the next entry to the quorum log. */
  lemma WrittenIsNext(s: State, self: nat, m: Mutation, net: WriteNet)
    requires Safe(s) && self < |s.cluster| && WriteOutcomeOf(s.cluster, self, m, net).Written?
    ensures WriteOutcomeOf(s.cluster, self, m, net).offset == |s.quorumLog| + 1
    ensures Next(s, Write(self, m, net)).quorumLog == s.quorumLog + [Entry(|s.quorumLog| + 1, m)]
  {
    hide Safe, Anchored, AfterWrite, Acknowledged;
    SafeIsAnchored(s);
    QuorumNeedsWholeLog(s, self, m, net.reach);
  }

  lemma ExecNext(s: State, run: seq<Step>, k: nat)
    requires k < |run|
    ensures Exec(s, run[..k + 1]) == Next(Exec(s, run[..k]), run[k])
  {
    hide Next;
    assert run[..k + 1][..k] == run[..k];
  }

  lemma {:induction false} GuardedPrefix(s: State, run: seq<Step>, k: nat)
    requires GuardedRun(s, run) && k <= |run|
    ensures GuardedRun(s, run[..k])
  {
    if k < |run| {
      GuardedPrefix(s, run[..|run| - 1], k);
      assert run[..|run| - 1][..k] == run[..k];
    } else {
      assert run[..k] == run;
    }
  }

  // ---------------------------------------------------------------------------
  // Without the guard

  /** Three replicas; the second acknowledges two entries but misses both commits, catches up from a source that
      committed only the first, and helps that source write another second entry. */
  function UnguardedRun(a: Mutation, b: Mutation, c: Mutation): seq<Step> {
    [Write(0, a, WriteNet(true, true, {1, 2}, true, {2})),
     Write(0, b, WriteNet(true, true, {1}, true, {})),
     CatchUp(2, 1, CatchUpNet(true, true, true, true, true, true, 1, true)),
     Write(2, c, WriteNet(true, true, {1}, true, {1}))]
  }

  lemma RangeOfOne(image: Image, x: Entry, after: nat, upTo: nat)
    ensures ApplyRange(image, [x], after, upTo) == if after < x.offset <= upTo then Apply(image, x.mutation) else image
  {
    assert [x][..0] == [];
  }

  lemma RangeOfTwo(image: Image, x: Entry, y: Entry, after: nat, upTo: nat)
    ensures ApplyRange(image, [x, y], after, upTo) ==
      ApplyRange(ApplyRange(image, [x], after, upTo), [y], after, upTo)
  {
    assert [x, y][..1] == [x];
    RangeOfOne(ApplyRange(image, [x], after, upTo), y, after, upTo);
  }

  lemma UnguardedFirstWrite(a: Mutation)
    ensures Next(Initial(3), Write(0, a, WriteNet(true, true, {1, 2}, true, {2}))) ==
      State([Replica([Entry(1, a)], 1, 0, Apply(map[], a)), Replica([Entry(1, a)], 0, 0, map[]),
             Replica([Entry(1, a)], 1, 0, Apply(map[], a))], [Entry(1, a)])
  {
    var c, e := Initial(3).cluster, Entry(1, a);
    assert forall i :: 0 <= i < 3 ==> c[i] == EMPTY;
    assert Acknowledged(c, 0, e, {1, 2}) == {0, 1, 2};
    assert [] + [e] == [e];
    assert ({0, 1, 2} * {2}) + {0} == {0, 2};
    RangeOfOne(map[], e, 0, 1);
    var d := CommitAt(AppendAt(c, {0, 1, 2}, e), {0, 2}, 1);
    assert d[1] == Replica([e], 0, 0, map[]);
    assert d[0] == d[2] == Replica([e], 1, 0, Apply(map[], a));
    assert d == [d[0], d[1], d[2]];
  }

  lemma UnguardedSecondWrite(a: Mutation, b: Mutation, s: State, image: Image)
    requires s == State([Replica([Entry(1, a)], 1, 0, image), Replica([Entry(1, a)], 0, 0, map[]),
                         Replica([Entry(1, a)], 1, 0, image)], [Entry(1, a)])
    ensures Next(s, Write(0, b, WriteNet(true, true, {1}, true, {}))) ==
      State([Replica([Entry(1, a), Entry(2, b)], 2, 0, Apply(image, b)),
        Replica([Entry(1, a), Entry(2, b)], 0, 0, map[]),
             Replica([Entry(1, a)], 1, 0, image)], [Entry(1, a), Entry(2, b)])
  {
    var c, e := s.cluster, Entry(2, b);
    assert Acknowledged(c, 0, e, {1}) == {0, 1};
    assert [Entry(1, a)] + [e] == [Entry(1, a), e];
    assert ({0, 1} * {}) + {0} == {0};
    CommitSecond(Entry(1, a), e, image);
    SecondCluster(c, Entry(1, a), e, image);
    hide Commit, Append, CommitAt, AppendAt;
  }

  lemma SecondCluster(c: Cluster, x: Entry, y: Entry, image: Image)
    requires x.offset == 1 && y.offset == 2
    requires c == [Replica([x], 1, 0, image), Replica([x], 0, 0, map[]), Replica([x], 1, 0, image)]
    ensures CommitAt(AppendAt(c, {0, 1}, y), {0}, 2) ==
      [Replica([x, y], 2, 0, Apply(image, y.mutation)), Replica([x, y], 0, 0, map[]), Replica([x], 1, 0, image)]
  {
    CommitSecond(x, y, image);
    assert [x] + [y] == [x, y];
    assert Append(c[1], y) == Replica([x, y], 0, 0, map[]);
    hide Commit, Append;
    var d := CommitAt(AppendAt(c, {0, 1}, y), {0}, 2);
    assert d == [d[0], d[1], d[2]];
  }

  lemma UnguardedCatchUp(a: Mutation, b: Mutation, source: Replica, image: Image)
    requires source == Replica([Entry(1, a)], 1, 0, image)
    ensures CatchUpResult(source, Replica([Entry(1, a), Entry(2, b)], 0, 0, map[]),
              CatchUpNet(true, true, true, true, true, true, 1, true)) ==
            (CaughtUp, Replica([Entry(1, a)], 1, 0, Apply(map[], a)))
  {
    var x, y := Entry(1, a), Entry(2, b);
    var target := Replica([x, y], 0, 0, map[]);
    assert [x, y][..1] == [x] && [x][..0] == [] && [x][1..] == [];
    assert DropFrom([x], 1) == [];
    assert DropFrom([x, y], 1) == DropFrom([x], 1);
    assert Clean(target) == Replica([], 0, 0, map[]);
    assert EntriesAfter([x], 0) == EntriesAfter([], 0) + [x] == [x];
    assert [] + [x] == [x];
    assert Replay(Clean(target), [x], 1, 1) == Replay(Replica([x], 0, 0, map[]), [], 1, 0);
    RangeOfOne(map[], x, 0, 1);
  }

  lemma UnguardedThirdWrite(a: Mutation, c: Mutation, s: State, image: Image)
    requires |s.cluster| == 3
    requires s.cluster[1] == s.cluster[2] == Replica([Entry(1, a)], 1, 0, image)
    requires Applied(s.cluster[0]) == 2
    ensures Next(s, Write(2, c, WriteNet(true, true, {1}, true, {1}))) ==
      State([s.cluster[0], Replica([Entry(1, a), Entry(2, c)], 2, 0, Apply(image, c)),
             Replica([Entry(1, a), Entry(2, c)], 2, 0, Apply(image, c))], s.quorumLog + [Entry(2, c)])
  {
    var e := Entry(2, c);
    assert Acknowledged(s.cluster, 2, e, {1}) == {1, 2};
    assert ({1, 2} * {1}) + {2} == {1, 2};
    CommitSecond(Entry(1, a), e, image);
    hide Commit, Append;
    var d := CommitAt(AppendAt(s.cluster, {1, 2}, e), {1, 2}, 2);
    assert d[1] == d[2] == Replica([Entry(1, a), e], 2, 0, Apply(image, c));
    assert d == [d[0], d[1], d[2]];
  }

  lemma CommitSecond(x: Entry, y: Entry, image: Image)
    requires x.offset == 1 && y.offset == 2
    ensures var r := Append(Replica([x], 1, 0, image), y);
      CanCommit(r, 2) && Commit(r, 2) == Replica([x, y], 2, 0, Apply(image, y.mutation))
  {
    assert [x] + [y] == [x, y];
    RangeOfTwo(image, x, y, 1, 2);
    RangeOfOne(image, x, 1, 2);
    RangeOfOne(image, y, 1, 2);
  }

  /** Without the guard the safety theorem is false: this run commits two different entries at offset 2, each
      acknowledged to its caller, and leaves replicas that disagree about it. */
  lemma UnguardedCatchUpLosesCommit(a: Mutation, b: Mutation, c: Mutation)
    ensures var run := UnguardedRun(a, b, c);
      var end := Exec(Initial(3), run);
      && !GuardedRun(Initial(3), run)
      && OutcomeAt(3, run, 1) == Written(2) && OutcomeAt(3, run, 3) == Written(2)
      && end.quorumLog == [Entry(1, a), Entry(2, b), Entry(2, c)]
      && end.cluster[0].committed == end.cluster[2].committed == 2
      && end.cluster[0].entries == [Entry(1, a), Entry(2, b)] && end.cluster[2].entries == [Entry(1, a), Entry(2, c)]
  {
    hide AfterWrite, CatchUpResult;
    var run := UnguardedRun(a, b, c);
    var image := Apply(map[], a);
    var s1 := Next(Initial(3), run[0]);
    var s2 := Next(s1, run[1]);
    var s3 := Next(s2, run[2]);
    UnguardedFirstWrite(a);
    UnguardedSecondWrite(a, b, s1, image);
    UnguardedCatchUp(a, b, s2.cluster[2], image);
    UnguardedThirdWrite(a, c, s3, image);
    NeededTarget(s2, 1);
    assert !KeepsApplied(s2.cluster[2], s2.cluster[1], run[2].catchUpNet);
    ExecFour(Initial(3), run);
    assert Acknowledged(s1.cluster, 0, Entry(2, b), {1}) == {0, 1};
    assert Acknowledged(s3.cluster, 2, Entry(2, c), {1}) == {1, 2};
  }

  /** One of exactly two replicas, out of three, that hold the whole log cannot be spared. */
  lemma NeededTarget(s: State, target: nat)
    requires |s.cluster| == 3 && target < 2
    requires Applied(s.cluster[0]) == Applied(s.cluster[1]) == |s.quorumLog| > Applied(s.cluster[2])
    ensures !Spare(s, target)
  {
    assert Full(s.cluster, |s.quorumLog|) == {0, 1};
  }

  /** Three replicas; the second acknowledges an entry but misses its commit, and its catch-up from the source that
      committed it fails right after the rollback. It then helps the third to write another first entry. */
  function FailedCatchUpRun(a: Mutation, b: Mutation): seq<Step> {
    [Write(0, a, WriteNet(true, true, {1}, true, {})),
     CatchUp(0, 1, CatchUpNet(true, true, true, false, true, true, 1, true)),
     Write(2, b, WriteNet(true, true, {1}, true, {}))]
  }

  lemma FirstWriteToTwo(self: nat, m: Mutation, s: State)
    requires |s.cluster| == 3 && (self == 0 || self == 2) && s.cluster[self] == EMPTY && s.cluster[1] == EMPTY
    ensures var net := WriteNet(true, true, {1}, true, {});
      && WriteOutcomeOf(s.cluster, self, m, net) == Written(1)
      && Next(s, Write(self, m, net)) ==
           State(s.cluster[1 := Replica([Entry(1, m)], 0, 0, map[])][self := Replica([Entry(1, m)], 1, 0,
             Apply(map[], m))],
                 s.quorumLog + [Entry(1, m)])
  {
    var e, c := Entry(1, m), s.cluster;
    assert Acknowledged(c, self, e, {1}) == {1, self};
    assert ({1, self} * {}) + {self} == {self};
    assert [] + [e] == [e];
    RangeOfOne(map[], e, 0, 1);
    var d := CommitAt(AppendAt(c, {1, self}, e), {self}, 1);
    assert d == c[1 := Replica([e], 0, 0, map[])][self := Replica([e], 1, 0, Apply(map[], m))];
  }

  lemma FailsAfterRollback(a: Mutation, source: Replica)
    requires source.committed == 1
    ensures CatchUpResult(source, Replica([Entry(1, a)], 0, 0, map[]),
      CatchUpNet(true, true, true, false, true, true, 1, true)) ==
      (Failed, EMPTY)
  {
    assert [Entry(1, a)][..0] == [];
    assert DropFrom([Entry(1, a)], 1) == DropFrom([], 1) == [];
  }

  /** That the source's commit covers all the target applied is not enough: a catch-up that fails after its rollback
      loses an acknowledged entry, and this run commits two different entries at offset 1. */
  lemma FailedCatchUpLosesCommit(a: Mutation, b: Mutation)
    ensures var run := FailedCatchUpRun(a, b);
      var before, end := Exec(Initial(3), run[..1]), Exec(Initial(3), run);
      && !GuardedRun(Initial(3), run)
      && before.cluster[0].committed >= Applied(before.cluster[1])
      && OutcomeAt(3, run, 0) == Written(1) && OutcomeAt(3, run, 2) == Written(1)
      && end.quorumLog == [Entry(1, a), Entry(1, b)]
      && end.cluster[0].entries == [Entry(1, a)] && end.cluster[2].entries == [Entry(1, b)]
  {
    hide AfterWrite, CatchUpResult, WriteOutcomeOf;
    var run := FailedCatchUpRun(a, b);
    var s1 := Next(Initial(3), run[0]);
    var s2 := Next(s1, run[1]);
    assert Initial(3).cluster == [EMPTY, EMPTY, EMPTY];
    FirstWriteToTwo(0, a, Initial(3));
    FailsAfterRollback(a, s1.cluster[0]);
    FirstWriteToTwo(2, b, s2);
    ExecThree(Initial(3), run);
    NeededTarget(s1, 1);
    assert !KeepsApplied(s1.cluster[0], s1.cluster[1], run[1].catchUpNet);
  }

  lemma ExecThree(s: State, run: seq<Step>)
    requires |run| == 3
    ensures var s1 := Next(s, run[0]); var s2 := Next(s1, run[1]);
      && Exec(s, run[..0]) == s && Exec(s, run[..1]) == s1 && Exec(s, run[..2]) == s2
      && Exec(s, run) == Next(s2, run[2])
      && (GuardedRun(s, run) ==> Guarded(s1, run[1]))
  {
    hide Next, Guarded;
    assert run[..1][..0] == [] && run[..2][..1] == run[..1];
    assert Exec(s, []) == s;
    assert Exec(s, run[..1]) == Next(s, run[0]);
    assert Exec(s, run[..2]) == Next(Exec(s, run[..1]), run[1]);
    assert GuardedRun(s, run) ==> GuardedRun(s, run[..2]);
  }

  lemma ExecFour(s: State, run: seq<Step>)
    requires |run| == 4
    ensures var s1 := Next(s, run[0]); var s2 := Next(s1, run[1]); var s3 := Next(s2, run[2]);
      && Exec(s, run[..1]) == s1 && Exec(s, run[..2]) == s2 && Exec(s, run[..3]) == s3
      && Exec(s, run) == Next(s3, run[3])
      && (GuardedRun(s, run) ==> Guarded(s2, run[2]))
  {
    hide Next, Guarded;
    assert run[..1][..0] == [] && run[..2][..1] == run[..1] && run[..3][..2] == run[..2];
    assert Exec(s, []) == s;
    assert Exec(s, run[..1]) == Next(s, run[0]);
    assert Exec(s, run[..2]) == Next(Exec(s, run[..1]), run[1]);
    assert Exec(s, run[..3]) == Next(Exec(s, run[..2]), run[2]);
    assert GuardedRun(s, run) ==> GuardedRun(s, run[..3]);
  }
}
