/** The replica contract: a log of contiguous entries, a commit offset and a document image. */
module Replicas {

  import opened Bytes
  import opened Ordering
  import opened Documents

  const MAX_OFFSET: nat := 0xFFFF_FFFF_FFFF_FFFF

  datatype Entry = Entry(offset: nat, mutation: Mutation)

  /** `floor` is the offset below which history may no longer be replayed. */
  datatype Replica = Replica(entries: seq<Entry>, committed: nat, floor: nat, documents: Image)

  const EMPTY := Replica([], 0, 0, map[])

  function Applied(r: Replica): nat {
    if r.entries == [] then r.floor else r.entries[|r.entries| - 1].offset
  }

  predicate CanAppend(r: Replica, e: Entry) {
    e.offset == (Applied(r) + 1) % (MAX_OFFSET + 1)
  }

  function Append(r: Replica, e: Entry): Replica {
    r.(entries := r.entries + [e])
  }

  predicate CanCommit(r: Replica, offset: nat) {
    r.committed <= offset <= Applied(r)
  }

  /** Applies the entries whose offsets lie in (after, upTo]. */
  function ApplyRange(image: Image, entries: seq<Entry>, after: nat, upTo: nat): Image {
    if entries == [] then image
    else
      var rest := ApplyRange(image, entries[..|entries| - 1], after, upTo);
      var e := entries[|entries| - 1];
      if after < e.offset <= upTo then Apply(rest, e.mutation) else rest
  }

  function Commit(r: Replica, offset: nat): Replica {
    r.(committed := offset, documents := ApplyRange(r.documents, r.entries, r.committed, offset))
  }

  predicate CanRollback(r: Replica, offset: nat) {
    r.committed < offset
  }

  /** Drops entries from the end while they are at or above `offset`. */
  function DropFrom(entries: seq<Entry>, offset: nat): seq<Entry> {
    if entries != [] && entries[|entries| - 1].offset >= offset
    then DropFrom(entries[..|entries| - 1], offset)
    else entries
  }

  function Rollback(r: Replica, offset: nat): Replica {
    r.(entries := DropFrom(r.entries, offset))
  }

  /** The entries above `after`, in log order. */
  function EntriesAfter(entries: seq<Entry>, after: nat): seq<Entry> {
    if entries == [] then []
    else
      var rest := EntriesAfter(entries[..|entries| - 1], after);
      var e := entries[|entries| - 1];
      if e.offset > after then rest + [e] else rest
  }

  predicate HistoryAvailable(r: Replica, after: nat) {
    r.floor <= after
  }

  function Install(r: Replica, offset: nat, documents: Image): Replica {
    Replica([], offset, offset, documents)
  }

  // ---------------------------------------------------------------------------
  // What a replica of one log looks like

  /** `r` is a replica of `log`: it holds a contiguous stretch of it that reaches from its floor to its
      applied offset, and its image is the fold of the committed prefix. */
  ghost predicate ReplicaOf(r: Replica, log: seq<Mutation>) {
    && r.floor <= r.committed <= Applied(r) <= |log|
    && |r.entries| <= Applied(r) <= r.floor + |r.entries|
    && Stretch(r.entries, log, Applied(r) - |r.entries|)
    && r.documents == Fold(map[], log[..r.committed])
  }

  /** `entries` are the entries of `log` that follow offset `start`. */
  ghost predicate Stretch(entries: seq<Entry>, log: seq<Mutation>, start: nat) {
    forall i :: 0 <= i < |entries| ==> entries[i] == EntryAt(log, start + i + 1)
  }

  function EntryAt(log: seq<Mutation>, offset: nat): Entry {
    Entry(offset, if 0 < offset <= |log| then log[offset - 1] else Mutation(Document([], [], []), true))
  }

  /** A longer log has the same replicas. */
  lemma ReplicaOfExtended(r: Replica, log: seq<Mutation>, more: seq<Mutation>)
    requires ReplicaOf(r, log)
    ensures ReplicaOf(r, log + more)
  {
    assert (log + more)[..r.committed] == log[..r.committed];
  }

  lemma AppendKeeps(r: Replica, log: seq<Mutation>, e: Entry)
    requires ReplicaOf(r, log) && Applied(r) < |log|
    requires e == EntryAt(log, Applied(r) + 1)
    ensures ReplicaOf(Append(r, e), log) && Applied(Append(r, e)) == Applied(r) + 1
  {
  }

  lemma {:induction false} ApplyRangeIsFold(image: Image, entries: seq<Entry>, log: seq<Mutation>, start: nat,
      after: nat, upTo: nat)
    requires start <= after <= upTo <= start + |entries| <= |log|
    requires Stretch(entries, log, start)
    ensures ApplyRange(image, entries, after, upTo) == Fold(image, log[after..upTo])
  {
    hide Fold, Apply;
    if after == upTo {
      assert log[after..upTo] == [] && Fold(image, []) == image by { FoldNothing(image); }
      ApplyRangeNothing(image, entries, after, upTo);
    } else {
      var n := |entries| - 1;
      var init := entries[..n];
      assert entries[n] == EntryAt(log, start + n + 1);
      assert Stretch(init, log, start);
      hide Stretch;
      if upTo < start + |entries| {
        ApplyRangeIsFold(image, init, log, start, after, upTo);
      } else {
        ApplyRangeIsFold(image, init, log, start, after, upTo - 1);
        ApplyRangeBeyond(image, init, log, start, after, upTo - 1, upTo);
        FoldSnoc(image, log[after..upTo - 1], log[upTo - 1]);
        assert log[after..upTo] == log[after..upTo - 1] + [log[upTo - 1]];
      }
    }
  }

  lemma {:induction false} ApplyRangeNothing(image: Image, entries: seq<Entry>, after: nat, upTo: nat)
    requires upTo <= after
    ensures ApplyRange(image, entries, after, upTo) == image
  {
    if entries != [] {
      ApplyRangeNothing(image, entries[..|entries| - 1], after, upTo);
    }
  }

  /** A bound past the last entry selects nothing more. */
  lemma {:induction false} ApplyRangeBeyond(image: Image, entries: seq<Entry>, log: seq<Mutation>, start: nat,
      after: nat, upTo: nat, further: nat)
    requires start + |entries| <= upTo <= further
    requires Stretch(entries, log, start)
    ensures ApplyRange(image, entries, after, upTo) == ApplyRange(image, entries, after, further)
  {
    if entries != [] {
      ApplyRangeBeyond(image, entries[..|entries| - 1], log, start, after, upTo, further);
    }
  }

  lemma CommitKeeps(r: Replica, log: seq<Mutation>, offset: nat)
    requires ReplicaOf(r, log) && CanCommit(r, offset)
    ensures ReplicaOf(Commit(r, offset), log) && Applied(Commit(r, offset)) == Applied(r)
  {
    hide ApplyRange, Fold, Stretch;
    ApplyRangeIsFold(r.documents, r.entries, log, Applied(r) - |r.entries|, r.committed, offset);
    FoldAppend(map[], log[..r.committed], log[r.committed..offset]);
    assert log[..offset] == log[..r.committed] + log[r.committed..offset];
  }

  lemma {:induction false} DropFromIsPrefix(entries: seq<Entry>, log: seq<Mutation>, start: nat, offset: nat)
    requires Stretch(entries, log, start)
    requires start < offset
    ensures DropFrom(entries, offset) == if start + |entries| < offset then entries else entries[..offset - 1 - start]
  {
    if entries != [] && entries[|entries| - 1].offset >= offset {
      DropFromIsPrefix(entries[..|entries| - 1], log, start, offset);
    }
  }

  lemma RollbackKeeps(r: Replica, log: seq<Mutation>, offset: nat)
    requires ReplicaOf(r, log) && CanRollback(r, offset)
    ensures ReplicaOf(Rollback(r, offset), log)
    ensures Applied(Rollback(r, offset)) == if Applied(r) < offset then Applied(r) else offset - 1
  {
    DropFromIsPrefix(r.entries, log, Applied(r) - |r.entries|, offset);
  }

  /** Rolling back the entry just appended undoes the append. */
  lemma RollbackUndoesAppend(r: Replica, log: seq<Mutation>, e: Entry)
    requires ReplicaOf(r, log) && e.offset == Applied(r) + 1
    ensures CanRollback(Append(r, e), e.offset)
    ensures Rollback(Append(r, e), e.offset) == r
  {
    var s := Append(r, e);
    assert s.entries[..|s.entries| - 1] == r.entries;
    assert DropFrom(r.entries, e.offset) == r.entries;
  }

  lemma {:induction false} EntriesAfterIsSuffix(entries: seq<Entry>, log: seq<Mutation>, start: nat, after: nat)
    requires Stretch(entries, log, start)
    requires start <= after
    ensures EntriesAfter(entries, after) == if start + |entries| <= after then [] else entries[after - start..]
  {
    if entries != [] {
      EntriesAfterIsSuffix(entries[..|entries| - 1], log, start, after);
      if start + |entries| > after {
        assert entries[after - start..] == entries[..|entries| - 1][after - start..] + [entries[|entries| - 1]];
      }
    }
  }

  // ---------------------------------------------------------------------------
  // The in-memory replica

  ghost function ValuesAt(image: Image, ids: set<Str>): set<Document> {
    set id | id in ids && id in image :: image[id]
  }

  lemma ValuesGrow(image: Image, ids: set<Str>, id: Str)
    requires id in image
    ensures ValuesAt(image, ids + {id}) == ValuesAt(image, ids) + {image[id]}
  {
  }

  lemma AllValues(image: Image)
    ensures ValuesAt(image, image.Keys - {}) == image.Values && |image.Keys| == |image|
  {
    assert image.Keys - {} == image.Keys;
  }

  /** The replica used throughout the replication tests. Each call takes `up`, which is false when the
      replica is unavailable or the caller's context has ended. */
  class MemoryReplica {
    var entries: seq<Entry>
    var committedOffset: nat
    var historyFloor: nat
    var documents: Image

    constructor ()
      ensures State() == EMPTY
    {
      entries, committedOffset, historyFloor, documents := [], 0, 0, map[];
    }

    ghost function State(): Replica
      reads this
    {
      Replica(entries, committedOffset, historyFloor, documents)
    }

    function AppliedOffset(): (r: nat)
      reads this
      ensures r == Applied(State())
    {
      if entries == [] then historyFloor else entries[|entries| - 1].offset
    }

    method AppendEntry(up: bool, e: Entry) returns (ok: bool)
      modifies this
      ensures ok == (up && CanAppend(old(State()), e))
      ensures State() == if ok then Append(old(State()), e) else old(State())
    {
      if !up { return false; }
      var expected := (AppliedOffset() + 1) % (MAX_OFFSET + 1);
      if e.offset != expected { return false; }
      entries := entries + [e];
      return true;
    }

    method CommitTo(up: bool, offset: nat) returns (ok: bool)
      modifies this
      ensures ok == (up && CanCommit(old(State()), offset))
      ensures State() == if ok then Commit(old(State()), offset) else old(State())
    {
      if !up { return false; }
      if offset < committedOffset || offset > AppliedOffset() { return false; }
      for i := 0 to |entries|
        invariant entries == old(entries) && committedOffset == old(committedOffset) &&
          historyFloor == old(historyFloor)
        invariant documents == ApplyRange(old(documents), entries[..i], committedOffset, offset)
      {
        assert entries[..i + 1][..i] == entries[..i];
        if committedOffset < entries[i].offset <= offset {
          documents := Apply(documents, entries[i].mutation);
        }
      }
      assert entries[..|entries|] == entries;
      committedOffset := offset;
      return true;
    }

    method RollbackFrom(up: bool, offset: nat) returns (ok: bool)
      modifies this
      ensures ok == (up && CanRollback(old(State()), offset))
      ensures State() == if ok then Rollback(old(State()), offset) else old(State())
    {
      if !up || offset <= committedOffset { return false; }
      while |entries| > 0 && entries[|entries| - 1].offset >= offset
        invariant DropFrom(entries, offset) == DropFrom(old(entries), offset)
        invariant committedOffset == old(committedOffset) && historyFloor == old(historyFloor) &&
          documents == old(documents)
        decreases |entries|
      {
        entries := entries[..|entries| - 1];
      }
      return true;
    }

    /** The entries above `after`, or nothing when that history was discarded. */
    method ReadEntries(up: bool, after: nat) returns (ok: bool, available: bool, found: seq<Entry>)
      ensures ok == up
      ensures ok ==> available == HistoryAvailable(State(), after)
      ensures ok && available ==> found == EntriesAfter(State().entries, after)
    {
      if !up { return false, false, []; }
      if after < historyFloor { return true, false, []; }
      found := [];
      for i := 0 to |entries|
        invariant found == EntriesAfter(entries[..i], after)
      {
        assert entries[..i + 1][..i] == entries[..i];
        if entries[i].offset > after { found := found + [entries[i]]; }
      }
      assert entries[..|entries|] == entries;
      return true, true, found;
    }

    /** Lists the committed documents, each once, in order of ID. */
    method TakeSnapshot(up: bool) returns (ok: bool, offset: nat, listing: seq<Document>)
      ensures ok == up
      ensures ok ==> offset == State().committed
      ensures ok ==> forall d :: d in listing <==> d in State().documents.Values
      ensures ok ==> Sorted(DocumentBefore, listing) && |listing| == |State().documents|
    {
      if !up { return false, 0, []; }
      hide Less;
      listing := [];
      var pending := documents.Keys;
      while pending != {}
        invariant pending <= documents.Keys && |listing| + |pending| == |documents.Keys|
        invariant Elements(listing) == ValuesAt(documents, documents.Keys - pending)
      {
        var id :| id in pending;
        ElementsSnoc(listing, documents[id]);
        ValuesGrow(documents, documents.Keys - pending, id);
        assert documents.Keys - (pending - {id}) == documents.Keys - pending + {id};
        listing := listing + [documents[id]];
        pending := pending - {id};
      }
      ghost var collected := listing;
      DocumentOrder();
      SortSorts(DocumentBefore, listing);
      listing := Sort(DocumentBefore, listing);
      SameElements(collected, listing);
      AllValues(documents);
      assert forall d :: d in listing <==> d in Elements(listing);
      return true, committedOffset, listing;
    }

    method InstallSnapshot(up: bool, offset: nat, listing: seq<Document>) returns (ok: bool)
      modifies this
      ensures ok == up
      ensures State() == if ok then Install(old(State()), offset, ImageOf(listing)) else old(State())
    {
      if !up { return false; }
      documents := map[];
      for i := 0 to |listing|
        invariant documents == ImageOf(listing[..i])
        invariant entries == old(entries) && committedOffset == old(committedOffset) &&
          historyFloor == old(historyFloor)
      {
        assert listing[..i + 1][..i] == listing[..i];
        documents := documents[listing[i].id := listing[i]];
      }
      assert listing[..|listing|] == listing;
      entries, historyFloor, committedOffset := [], offset, offset;
      return true;
    }
  }
}
