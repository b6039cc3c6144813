/** What publishing and compacting leave in the directory, file by file. */
module SegmentEffects {

  import opened Bytes
  import opened Ordering
  import opened Encoding
  import opened Documents
  import opened SegmentCodec
  import opened SegmentFile
  import opened SegmentStore

  /** `next` is the number after the largest one in use, or 1 in an empty directory. */
  ghost predicate OneAbove(files: Files, next: nat) {
    if files == map[] then next == 1
    else next > 0 && next - 1 in files && forall g :: g in files ==> g < next
  }

  lemma NextIsOneAbove(kit: Kit, files: Files)
    requires forall g :: g in files ==> 0 < g < UINT64
    ensures var next := NextGeneration(Listed(kit, files));
      if UINT64 - 1 in files then next == 0 else OneAbove(files, next)
  {
    hide Listed, NextGeneration, OneAbove;
    if files == map[] {
      NoneListed(kit, files);
    } else {
      var newest := NewestGeneration(kit, files);
      OneAboveNewest(files, newest);
    }
  }

  lemma NoneListed(kit: Kit, files: Files)
    requires files == map[]
    ensures NextGeneration(Listed(kit, files)) == 1 && OneAbove(files, 1)
  {
  }

  lemma NewestGeneration(kit: Kit, files: Files) returns (newest: nat)
    requires files != map[]
    ensures newest in files && forall g :: g in files ==> g <= newest
    ensures NextGeneration(Listed(kit, files)) == (newest + 1) % UINT64
  {
    hide Generations, SegAt, StrictlySorted, Elements, Listed;
    newest := Generations(files)[|files| - 1];
    GenerationsBelow(files, |files| - 1);
    forall g | g in files ensures g <= newest {
      NewestIsLast(files, g);
    }
    ListedGeneration(kit, files, |files| - 1);
  }

  lemma ListedGeneration(kit: Kit, files: Files, i: nat)
    requires i < |files|
    ensures Listed(kit, files)[i].generation == Generations(files)[i]
  {
    hide Generations, SegAt, StrictlySorted, Elements;
  }

  lemma OneAboveNewest(files: Files, newest: nat)
    requires newest in files && newest < UINT64 && forall g :: g in files ==> g <= newest
    ensures UINT64 - 1 in files ==> newest == UINT64 - 1
    ensures UINT64 - 1 !in files ==> newest + 1 < UINT64 && OneAbove(files, newest + 1)
  {
  }

  /** When a segment is written: a generation is left, every record has an ID, no ID comes twice, and the payload has at
      most 512 MiB. */
  lemma WrittenIff(kit: Kit, files: Files, entries: seq<Entry>)
    requires forall g :: g in files ==> 0 < g < UINT64
    ensures Written(kit, files, entries).Ok? <==>
      && UINT64 - 1 !in files
      && (forall i :: 0 <= i < |entries| ==> kit.trim(entries[i].document.id) != [])
      && (forall i, j :: 0 <= i < j < |entries| ==> entries[i].document.id != entries[j].document.id)
      && |PayloadBytes(Sort(ById, entries), TermList(BuildPostings(kit, Sort(ById, entries))))| <= 512 * 1024 * 1024
  {
    hide Sort, Accepted, Listed, NextGeneration, PayloadBytes, TermList, BuildPostings, Header;
    NextIsOneAbove(kit, files);
    AcceptedIff(kit, entries);
  }

  lemma OneAboveUnique(files: Files, a: nat, b: nat)
    requires OneAbove(files, a) && OneAbove(files, b)
    ensures a == b
  {
  }

  lemma NewestIsNew(files: Files, next: nat)
    requires OneAbove(files, next)
    ensures next !in files
  {
  }

  /** `t` is `files` with `next` written and `gone` removed, and nothing else. */
  ghost predicate Replaced(files: Files, next: nat, bytes: seq<Byte>, gone: set<nat>, t: Files) {
    && t.Keys == files.Keys - gone + {next} && t[next] == bytes
    && forall g :: g in files && g !in gone && g != next ==> t[g] == files[g]
  }

  lemma OneFileMore(files: Files, next: nat, bytes: seq<Byte>, gone: set<nat>)
    requires next !in files && gone <= files.Keys
    ensures Replaced(files, next, bytes, gone, files[next := bytes] - gone)
    ensures Replaced(files, next, bytes, {}, files[next := bytes])
  {
  }

  /** A batch that is published adds one file, numbered one above the largest, and leaves every other as it was; the
      documents shown are the old ones with the batch on top. A batch that is not written leaves the directory alone. */
  lemma PublishEffect(kit: Kit, files: Files, mutations: seq<Mutation>) returns (next: nat)
    requires ValidKit(kit) && InOrder(kit, files)
    ensures var t, batch := AfterPublish(kit, files, mutations), Records(kit, mutations);
      if mutations == [] || Written(kit, files, batch).Err? then t == files
      else
        && OneAbove(files, next) && next !in files
        && Replaced(files, next, Written(kit, files, batch).value, {}, t)
        && (ReaderAccepts(kit, batch) ==> InOrder(kit, t) && Shown(kit, t) == Overlay(Shown(kit, files), batch))
  {
    next := NextGeneration(Listed(kit, files));
    hide Listed, NextGeneration, Records, ReaderAccepts, Overlay, Shown, Written, AllReadable, OneAbove, Replaced;
    var batch := Records(kit, mutations);
    assert AllReadable(kit, files);
    if Written(kit, files, batch).Ok? {
      WrittenOneAbove(kit, files, batch);
      NewestIsNew(files, next);
      OneFileMore(files, next, Written(kit, files, batch).value, {});
      if ReaderAccepts(kit, batch) {
        PublishShows(kit, files, batch);
      }
    }
  }

  lemma WrittenOneAbove(kit: Kit, files: Files, entries: seq<Entry>)
    requires InOrder(kit, files) && Written(kit, files, entries).Ok?
    ensures OneAbove(files, NextGeneration(Listed(kit, files)))
  {
    hide Listed, NextGeneration, AllReadable, EncodePayload, Header, OneAbove;
    NextIsOneAbove(kit, files);
  }

  /** `gone` are the `count` smallest numbers in use, or all of them when there are fewer. */
  ghost predicate Smallest(files: Files, gone: set<nat>, count: nat) {
    && gone <= files.Keys && |gone| == Min(count, |files|)
    && forall x, y :: x in gone && y in files && y !in gone ==> x < y
  }

  lemma FirstAreSmallest(files: Files, gs: seq<nat>, count: nat)
    requires StrictlySorted(Before, gs) && Elements(gs) == files.Keys && |gs| == |files|
    ensures Smallest(files, Elements(gs[..Min(count, |files|)]), count)
  {
    var k := Min(count, |files|);
    var first := gs[..k];
    forall x | x in first ensures x in files { assert x in Elements(gs); }
    StrictlySortedDistinct(first);
    DistinctCard(first);
    forall x, y | x in Elements(first) && y in files && y !in Elements(first) ensures x < y {
      var i :| 0 <= i < |first| && first[i] == x;
      DropTaken(gs, k);
      var j :| 0 <= j < |gs[k..]| && gs[k..][j] == y;
      assert Before(gs[i], gs[k + j]);
    }
  }

  lemma StrictlySortedDistinct(s: seq<nat>)
    requires StrictlySorted(Before, s)
    ensures Distinct(s)
  {
    forall i, j | 0 <= i < j < |s| ensures s[i] != s[j] {
      assert Before(s[i], s[j]);
    }
  }

  /** A compaction that is written adds the merged segment one above the largest number and removes as many of the
      oldest files as could be removed, all of them when nothing failed, and touches no other file. Otherwise the
      directory is left alone. */
  lemma CompactEffect(kit: Kit, files: Files, limit: int, merged: seq<Entry>, removed: nat)
      returns (next: nat, gone: set<nat>)
    requires InOrder(kit, files)
    ensures var t := AfterCompact(kit, files, limit, merged, removed);
      if !(1 <= limit < |files|) || Written(kit, files, merged).Err? then t == files
      else
        && OneAbove(files, next) && next !in files && Smallest(files, gone, removed)
        && Replaced(files, next, Written(kit, files, merged).value, gone, t)
        && (removed >= |files| ==> t.Keys == {next})
  {
    next := NextGeneration(Listed(kit, files));
    gone := Elements(Generations(files)[..Min(removed, |files|)]);
    CompactedFiles(kit, files, limit, merged, removed);
    hide *;
    if Written(kit, files, merged).Ok? && 1 <= limit < |files| {
      WrittenOneAbove(kit, files, merged);
      OldestAreSmallest(files, removed);
      NewestIsNew(files, next);
      var bytes := Written(kit, files, merged).value;
      SmallestAreThere(files, gone, removed);
      OneFileMore(files, next, bytes, gone);
      if removed >= |files| {
        OnlyTheNew(files, next, bytes, gone, removed, AfterCompact(kit, files, limit, merged, removed));
      }
    }
  }

  lemma CompactedFiles(kit: Kit, files: Files, limit: int, merged: seq<Entry>, removed: nat)
    requires InOrder(kit, files)
    ensures var t, next := AfterCompact(kit, files, limit, merged, removed), NextGeneration(Listed(kit, files));
      var gone := Elements(Generations(files)[..Min(removed, |files|)]);
      if !(1 <= limit < |files|) || Written(kit, files, merged).Err? then t == files
      else t == files[next := Written(kit, files, merged).value] - gone
  {
    hide Listed, NextGeneration, Written, Generations, AllReadable, Elements;
  }

  lemma OldestAreSmallest(files: Files, count: nat)
    ensures Smallest(files, Elements(Generations(files)[..Min(count, |files|)]), count)
  {
    hide Smallest, Elements, StrictlySorted;
    FirstAreSmallest(files, Generations(files), count);
  }

  lemma SmallestAreThere(files: Files, gone: set<nat>, count: nat)
    requires Smallest(files, gone, count)
    ensures gone <= files.Keys
  {
  }

  lemma OnlyTheNew(files: Files, next: nat, bytes: seq<Byte>, gone: set<nat>, count: nat, t: Files)
    requires Replaced(files, next, bytes, gone, t) && Smallest(files, gone, count) && count >= |files|
    ensures t.Keys == {next}
  {
    SubsetFull(gone, files.Keys);
  }

  /** What a batch does to what is shown: its mutations, under their trimmed IDs, applied in order. */
  lemma {:induction false} BatchIsApplied(kit: Kit, image: Image, batch: seq<Mutation>)
    ensures Overlay(image, Records(kit, batch)) ==
      Fold(image, seq(|batch|, i requires 0 <= i < |batch| =>
        Mutation(batch[i].document.(id := kit.trim(batch[i].document.id)), batch[i].deleted)))
  {
    var all := seq(|batch|, i requires 0 <= i < |batch| =>
      Mutation(batch[i].document.(id := kit.trim(batch[i].document.id)), batch[i].deleted));
    if batch != [] {
      var n := |batch| - 1;
      BatchIsApplied(kit, image, batch[..n]);
      assert Records(kit, batch)[..n] == Records(kit, batch[..n]);
      assert all[..n] == seq(n, i requires 0 <= i < n =>
        Mutation(batch[..n][i].document.(id := kit.trim(batch[..n][i].document.id)), batch[..n][i].deleted));
    }
  }
}
