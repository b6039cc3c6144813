/** `Primary.Write` and `CatchUp` on replica objects, refining the steps of `Replication`. */
module Primaries {

  import opened Bytes
  import opened Documents
  import opened Replicas
  import opened Replication
  import Elections

  ghost function States(replicas: seq<MemoryReplica>): (c: Cluster)
    reads replicas
    ensures |c| == |replicas|
    ensures forall i :: 0 <= i < |c| ==> c[i] == replicas[i].State()
  {
    seq(|replicas|, i requires 0 <= i < |replicas| reads replicas => replicas[i].State())
  }

  ghost predicate AllDistinct(replicas: seq<MemoryReplica>) {
    forall i, j :: 0 <= i < j < |replicas| ==> replicas[i] != replicas[j]
  }

  /** `arrival` lists every peer of `self` once, in the order their acknowledgments arrive. */
  ghost predicate ArrivalOrder(arrival: seq<nat>, n: nat, self: nat) {
    && Indices(arrival, n)
    && (forall i :: i in arrival <==> 0 <= i < n && i != self)
  }

  function Members(list: seq<nat>): set<nat> {
    set i | i in list
  }

  /** Distinct indices of replicas. */
  ghost predicate Indices(list: seq<nat>, n: nat) {
    && (forall i, j :: 0 <= i < j < |list| ==> list[i] != list[j])
    && (forall k :: 0 <= k < |list| ==> list[k] < n)
  }

  /** Sends one entry to the peers and collects their answers in arrival order. */
  method Collect(replicas: seq<MemoryReplica>, self: nat, e: Entry, reach: set<nat>, arrival: seq<nat>)
    returns (acknowledged: seq<nat>)
    requires self < |replicas| && AllDistinct(replicas)
    requires ArrivalOrder(arrival, |replicas|, self)
    modifies set i | 0 <= i < |replicas| && i != self :: replicas[i]
    ensures Indices(acknowledged, |replicas|)
    ensures acknowledged != [] && acknowledged[0] == self
    ensures Members(acknowledged) == Acknowledged(old(States(replicas)), self, e, reach)
    ensures forall i :: 0 <= i < |replicas| ==>
      replicas[i].State() ==
        if i != self && i in acknowledged then Append(old(replicas[i].State()), e) else old(replicas[i].State())
  {
    acknowledged := [self];
    for k := 0 to |arrival|
      invariant Indices(acknowledged, |replicas|)
      invariant acknowledged != [] && acknowledged[0] == self
      invariant forall i :: i in acknowledged <==>
        i == self || (i in arrival[..k] && i in reach && i < |replicas| && CanAppend(old(replicas[i].State()), e))
      invariant forall i :: 0 <= i < |replicas| ==>
        replicas[i].State() ==
          if i != self && i in acknowledged then Append(old(replicas[i].State()), e) else old(replicas[i].State())
    {
      var peer := arrival[k];
      assert peer in arrival;
      assert peer !in arrival[..k];
      assert forall i :: i in arrival[..k + 1] <==> i in arrival[..k] || i == peer;
      var ok := replicas[peer].AppendEntry(peer in reach, e);
      if ok {
        acknowledged := acknowledged + [peer];
      }
    }
    assert arrival[..|arrival|] == arrival;
  }

  method RollbackAll(replicas: seq<MemoryReplica>, acknowledged: seq<nat>, offset: nat)
    requires AllDistinct(replicas)
    requires Indices(acknowledged, |replicas|)
    modifies replicas
    ensures States(replicas) == RollbackAt(old(States(replicas)), Members(acknowledged), offset)
  {
    for k := 0 to |acknowledged|
      invariant forall i :: 0 <= i < |replicas| ==>
        replicas[i].State() ==
          if i in acknowledged[..k] && CanRollback(old(replicas[i].State()), offset)
          then Rollback(old(replicas[i].State()), offset) else old(replicas[i].State())
    {
      var at := acknowledged[k];
      assert at !in acknowledged[..k];
      assert forall i :: i in acknowledged[..k + 1] <==> i in acknowledged[..k] || i == at;
      var _ := replicas[at].RollbackFrom(true, offset);
    }
    assert acknowledged[..|acknowledged|] == acknowledged;
  }

  /** Commits on the acknowledging peers that can be reached; their errors are ignored. */
  method CommitPeers(replicas: seq<MemoryReplica>, acknowledged: seq<nat>, offset: nat, commits: set<nat>)
    requires AllDistinct(replicas)
    requires acknowledged != []
    requires Indices(acknowledged, |replicas|)
    modifies set i | 0 <= i < |replicas| && i != acknowledged[0] :: replicas[i]
    ensures States(replicas) ==
      CommitAt(old(States(replicas)), Members(acknowledged[1..]) * commits, offset)
  {
    for k := 1 to |acknowledged|
      invariant forall i :: 0 <= i < |replicas| ==>
        replicas[i].State() ==
          if i in acknowledged[1..k] && i in commits && CanCommit(old(replicas[i].State()), offset)
          then Commit(old(replicas[i].State()), offset) else old(replicas[i].State())
    {
      var at := acknowledged[k];
      assert at !in acknowledged[1..k];
      assert forall i :: i in acknowledged[1..k + 1] <==> i in acknowledged[1..k] || i == at;
      var _ := replicas[at].CommitTo(at in commits, offset);
    }
    assert acknowledged[1..|acknowledged|] == acknowledged[1..];
  }

  /** Appends the entry locally and, if that succeeds, on every peer that takes it. */
  method Replicate(replicas: seq<MemoryReplica>, self: nat, e: Entry, localAppend: bool, reach: set<nat>,
      arrival: seq<nat>)
    returns (ok: bool, acknowledged: seq<nat>)
    requires self < |replicas| && AllDistinct(replicas)
    requires ArrivalOrder(arrival, |replicas|, self)
    modifies replicas
    ensures ok == (localAppend && CanAppend(old(replicas[self].State()), e))
    ensures !ok ==> States(replicas) == old(States(replicas))
    ensures ok ==>
      && Indices(acknowledged, |replicas|) && acknowledged != [] && acknowledged[0] == self
      && Members(acknowledged) == Acknowledged(old(States(replicas)), self, e, reach)
      && States(replicas) == AppendAt(old(States(replicas)), Members(acknowledged), e)
      && replicas[self].State() == Append(old(replicas[self].State()), e)
  {
    acknowledged := [];
    ghost var before := States(replicas);
    ok := replicas[self].AppendEntry(localAppend, e);
    if ok {
      ghost var sent := States(replicas);
      acknowledged := Collect(replicas, self, e, reach, arrival);
      assert Acknowledged(sent, self, e, reach) == Acknowledged(before, self, e, reach);
    }
  }

  lemma CommitTwice(c: Cluster, self: nat, peers: set<nat>, offset: nat)
    requires self !in peers
    ensures CommitAt(CommitAt(c, {self}, offset), peers, offset) == CommitAt(c, peers + {self}, offset)
  {
    hide Commit, CanCommit;
  }

  method CommitLocal(replicas: seq<MemoryReplica>, self: nat, offset: nat, localCommit: bool) returns (ok: bool)
    requires self < |replicas| && AllDistinct(replicas)
    modifies replicas[self]
    ensures ok == (localCommit && CanCommit(old(replicas[self].State()), offset))
    ensures States(replicas) == if ok then CommitAt(old(States(replicas)), {self}, offset) else old(States(replicas))
  {
    hide Commit, CanCommit;
    ok := replicas[self].CommitTo(localCommit, offset);
  }

  /** Commits locally, then on the peers. */
  method CommitEverywhere(replicas: seq<MemoryReplica>, self: nat, acknowledged: seq<nat>, offset: nat,
      localCommit: bool, commits: set<nat>)
    returns (ok: bool)
    requires self < |replicas| && AllDistinct(replicas)
    requires Indices(acknowledged, |replicas|) && acknowledged != [] && acknowledged[0] == self
    modifies replicas
    ensures ok == (localCommit && CanCommit(old(replicas[self].State()), offset))
    ensures States(replicas) ==
      if ok then CommitAt(old(States(replicas)), (Members(acknowledged) * commits) + {self}, offset)
      else old(States(replicas))
  {
    hide CanCommit, CommitAt, States;
    ghost var before := States(replicas);
    ok := CommitLocal(replicas, self, offset, localCommit);
    if ok {
      CommitPeers(replicas, acknowledged, offset, commits);
      assert self !in acknowledged[1..];
      assert acknowledged == [self] + acknowledged[1..];
      assert Members(acknowledged) * commits + {self} == Members(acknowledged[1..]) * commits + {self};
      CommitTwice(before, self, Members(acknowledged[1..]) * commits, offset);
    }
  }

  /** Appends and commits a mutation after a majority acknowledges it. The replica at `self` is the local one, the
      others are its peers; the result does not depend on the order in which the peers answer. */
  method WriteToQuorum(replicas: seq<MemoryReplica>, self: nat, m: Mutation, net: WriteNet, arrival: seq<nat>)
    returns (outcome: WriteOutcome)
    requires self < |replicas| && AllDistinct(replicas)
    requires ArrivalOrder(arrival, |replicas|, self)
    modifies replicas
    ensures outcome == WriteOutcomeOf(old(States(replicas)), self, m, net)
    ensures States(replicas) == AfterWrite(old(States(replicas)), self, m, net)
  {
    hide Applied, CanAppend, CanCommit, AppendAt, RollbackAt, CommitAt, Acknowledged, States;
    if !net.status { return StatusFailed; }
    var applied := replicas[self].AppliedOffset();
    if applied == MAX_OFFSET { return Exhausted; }
    var e := Entry(applied + 1, m);
    var ok, acknowledged := Replicate(replicas, self, e, net.localAppend, net.reach, arrival);
    if !ok { return AppendFailed; }
    ListCard(acknowledged, |replicas|);
    assert self in acknowledged;
    if |acknowledged| < Quorum(|replicas|) {
      RollbackAll(replicas, acknowledged, e.offset);
      return QuorumUnavailable;
    }
    ok := CommitEverywhere(replicas, self, acknowledged, e.offset, net.localCommit, net.commits);
    return if ok then Written(e.offset) else CommitFailed(e.offset);
  }

  datatype PrimaryOutcome = NotLeader | Attempted(outcome: WriteOutcome)

  /** A primary of one shard, bound to the node and term it was elected with. */
  class Primary {
    const node: Str
    const term: nat
    const election: Elections.Election
    const replicas: seq<MemoryReplica>
    const self: nat

    constructor (node: Str, term: nat, election: Elections.Election, replicas: seq<MemoryReplica>, self: nat)
      requires self < |replicas| && AllDistinct(replicas)
      ensures this.node == node && this.term == term && this.election == election
      ensures this.replicas == replicas && this.self == self
    {
      this.node, this.term, this.election, this.replicas, this.self := node, term, election, replicas, self;
    }

    /** Writes while the primary's own term still holds the lease; otherwise no replica changes. */
    method Write(now: nat, m: Mutation, net: WriteNet, arrival: seq<nat>) returns (r: PrimaryOutcome)
      requires self < |replicas| && AllDistinct(replicas)
      requires ArrivalOrder(arrival, |replicas|, self)
      modifies replicas
      ensures r.NotLeader? <==> !Elections.Valid(election.trim, old(election.current), node, term, now)
      ensures r.NotLeader? ==> States(replicas) == old(States(replicas))
      ensures r.Attempted? ==>
        && r.outcome == WriteOutcomeOf(old(States(replicas)), self, m, net)
        && States(replicas) == AfterWrite(old(States(replicas)), self, m, net)
    {
      var valid := election.Validate(node, term, now);
      if !valid { return NotLeader; }
      var outcome := WriteToQuorum(replicas, self, m, net, arrival);
      return Attempted(outcome);
    }
  }

  lemma {:induction false} ListCard(list: seq<nat>, n: nat)
    requires Indices(list, n)
    ensures |Members(list)| == |list|
  {
    if list != [] {
      var init, last := list[..|list| - 1], list[|list| - 1];
      ListCard(init, n);
      assert list == init + [last];
      assert Members(list) == Members(init) + {last};
    }
  }

  /** Brings the target to the source's committed offset by replaying entries or installing a snapshot. */
  method CatchUp(source: MemoryReplica, target: MemoryReplica, net: CatchUpNet) returns (outcome: CatchUpOutcome)
    requires Keyed(source.documents)
    modifies target
    ensures (outcome, target.State()) == CatchUpResult(old(source.State()), old(target.State()), net)
  {
    ghost var s, t := source.State(), target.State();
    if !net.sourceStatus || !net.targetStatus { return Failed; }
    var commit, from := source.committedOffset, target.committedOffset;
    if from > commit { return TargetAhead; }
    if from == commit { return CaughtUp; }
    assert source != target;
    if target.AppliedOffset() > from {
      var rolledBack := target.RollbackFrom(net.rollback, from + 1);
      if !rolledBack { return Failed; }
    }
    assert target.State() == Clean(t) && source.State() == s;
    var ok, available, entries := source.ReadEntries(net.entries, from);
    if !ok { return Failed; }
    if !available {
      var offset, listing;
      ok, offset, listing := source.TakeSnapshot(net.snapshot);
      if !ok { return Failed; }
      ListingRoundTrip(source.documents, listing);
      ok := target.InstallSnapshot(net.install, offset, listing);
      return if ok then CaughtUp else Failed;
    }
    var replayed := ReplayEntries(target, entries, commit, net.appends);
    if !replayed { return Failed; }
    ok := target.CommitTo(net.commit, commit);
    return if ok then CaughtUp else Failed;
  }

  method ReplayEntries(target: MemoryReplica, entries: seq<Entry>, limit: nat, appends: nat) returns (ok: bool)
    modifies target
    ensures (ok, target.State()) == Replay(old(target.State()), entries, limit, appends)
  {
    var left := appends;
    var i := 0;
    while i < |entries|
      invariant i <= |entries|
      invariant Replay(target.State(), entries[i..], limit, left) ==
        Replay(old(target.State()), entries, limit, appends)
    {
      var e := entries[i];
      assert entries[i..][1..] == entries[i + 1..];
      if e.offset > limit { break; }
      var appended := target.AppendEntry(left > 0, e);
      if !appended { return false; }
      left := left - 1;
      i := i + 1;
    }
    return true;
  }
}
