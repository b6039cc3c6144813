/** A directory of immutable segments: publishing, the documents it shows, and compaction that may stop anywhere.

    A file appears or disappears atomically; a crash can fall between any two of those steps. */
module SegmentStore {

  import opened Bytes
  import opened Ordering
  import opened Encoding
  import opened Documents
  import opened SegmentCodec
  import opened SegmentFile

  /** Segment files by the generation in their names. */
  type Files = map<nat, seq<Byte>>

  datatype Seg = Seg(generation: nat, entries: seq<Entry>)

  // ---------------------------------------------------------------------------
  // What segments show

  function AsMutation(e: Entry): Mutation {
    Mutation(e.document, e.deleted)
  }

  /** The image after applying a segment's records in order. */
  function Overlay(image: Image, entries: seq<Entry>): Image {
    if entries == [] then image
    else Apply(Overlay(image, entries[..|entries| - 1]), AsMutation(entries[|entries| - 1]))
  }

  function OverlayAll(segs: seq<Seg>): Image {
    if segs == [] then map[] else Overlay(OverlayAll(segs[..|segs| - 1]), segs[|segs| - 1].entries)
  }

  /** The latest record of every ID, tombstones included. */
  function Latest(current: map<Str, Entry>, entries: seq<Entry>): map<Str, Entry> {
    if entries == [] then current
    else
      var e := entries[|entries| - 1];
      Latest(current, entries[..|entries| - 1])[e.document.id := e]
  }

  function LatestAll(segs: seq<Seg>): map<Str, Entry> {
    if segs == [] then map[] else Latest(LatestAll(segs[..|segs| - 1]), segs[|segs| - 1].entries)
  }

  function Live(current: map<Str, Entry>): Image {
    map id | id in current && !current[id].deleted :: current[id].document
  }

  lemma {:induction false} LiveOfLatest(current: map<Str, Entry>, entries: seq<Entry>)
    ensures Live(Latest(current, entries)) == Overlay(Live(current), entries)
  {
    if entries != [] {
      LiveOfLatest(current, entries[..|entries| - 1]);
    }
  }

  /** Taking the latest record of each ID and dropping tombstones shows what applying all records in order would. */
  lemma {:induction false} LiveOfLatestAll(segs: seq<Seg>)
    ensures Live(LatestAll(segs)) == OverlayAll(segs)
  {
    if segs != [] {
      LiveOfLatestAll(segs[..|segs| - 1]);
      LiveOfLatest(LatestAll(segs[..|segs| - 1]), segs[|segs| - 1].entries);
    }
  }

  ghost predicate Mentions(entries: seq<Entry>, id: Str) {
    exists i :: 0 <= i < |entries| && entries[i].document.id == id
  }

  lemma {:induction false} OverlayOther(image: Image, entries: seq<Entry>, id: Str)
    requires !Mentions(entries, id)
    ensures var r := Overlay(image, entries); (id in r <==> id in image) && (id in image ==> r[id] == image[id])
  {
    if entries != [] {
      var init, last := entries[..|entries| - 1], entries[|entries| - 1];
      forall i | 0 <= i < |init| ensures init[i].document.id != id {
        assert entries[i].document.id != id;
      }
      OverlayOther(image, init, id);
      assert entries[|entries| - 1].document.id != id;
    }
  }

  lemma {:induction false} OverlayOwn(image: Image, entries: seq<Entry>, i: nat)
    requires DistinctIds(entries) && i < |entries|
    ensures var r, e := Overlay(image, entries), entries[i];
      (e.document.id in r <==> !e.deleted) && (!e.deleted ==> r[e.document.id] == e.document)
  {
    if i < |entries| - 1 {
      OverlayOwn(image, entries[..|entries| - 1], i);
    }
  }

  /** With distinct IDs, overlaying a segment replaces or removes exactly the IDs it mentions. */
  lemma OverlayPointwise(image: Image, entries: seq<Entry>, id: Str)
    requires DistinctIds(entries)
    ensures var r := Overlay(image, entries);
      && (!Mentions(entries, id) ==> (id in r <==> id in image) && (id in image ==> r[id] == image[id]))
      && (forall e :: e in entries && e.document.id == id ==>
           (id in r <==> !e.deleted) && (!e.deleted ==> r[id] == e.document))
  {
    hide Overlay;
    var r := Overlay(image, entries);
    if !Mentions(entries, id) {
      OverlayOther(image, entries, id);
    }
    forall e | e in entries && e.document.id == id
      ensures (id in r <==> !e.deleted) && (!e.deleted ==> r[id] == e.document) {
      var i :| 0 <= i < |entries| && entries[i] == e;
      OverlayOwn(image, entries, i);
    }
  }

  lemma MentionsSame(a: seq<Entry>, b: seq<Entry>, id: Str)
    requires forall e :: e in b ==> exists x :: x in a && Stripped(x) == e
    ensures Mentions(b, id) ==> Mentions(a, id)
  {
    if Mentions(b, id) {
      var i :| 0 <= i < |b| && b[i].document.id == id;
      assert b[i] in b;
      var x :| x in a && Stripped(x) == b[i];
      var j :| 0 <= j < |a| && a[j] == x;
    }
  }

  /** The same distinct records, in another order or with tombstones stripped, overlay to the same image. */
  lemma OverlaySameEntries(image: Image, a: seq<Entry>, b: seq<Entry>)
    requires DistinctIds(a) && DistinctIds(b)
    requires forall e :: e in a ==> Stripped(e) in b
    requires forall e :: e in b ==> exists x :: x in a && Stripped(x) == e
    ensures Overlay(image, a) == Overlay(image, b)
  {
    var r, s := Overlay(image, a), Overlay(image, b);
    forall id ensures (id in r <==> id in s) && (id in r ==> r[id] == s[id]) {
      OverlayPointwise(image, a, id);
      OverlayPointwise(image, b, id);
      hide Overlay;
      MentionsSame(a, b, id);
      if Mentions(a, id) {
        var i :| 0 <= i < |a| && a[i].document.id == id;
        assert a[i] in a && Stripped(a[i]) in b;
      }
    }
  }

  // ---------------------------------------------------------------------------
  // Compaction

  /** `merged` lists the live records of `current`, each once. */
  ghost predicate Merges(current: map<Str, Entry>, merged: seq<Entry>) {
    && DistinctIds(merged)
    && (forall e :: e in merged ==> e.document.id in current && current[e.document.id] == e && !e.deleted)
    && (forall id :: id in current && !current[id].deleted ==> current[id] in merged)
  }

  /** Every record is stored under its own ID. */
  ghost predicate KeyedById(current: map<Str, Entry>) {
    forall id :: id in current ==> current[id].document.id == id
  }

  lemma {:induction false} LatestKeyed(current: map<Str, Entry>, entries: seq<Entry>)
    requires KeyedById(current)
    ensures KeyedById(Latest(current, entries))
  {
    if entries != [] {
      LatestKeyed(current, entries[..|entries| - 1]);
    }
  }

  lemma {:induction false} LatestAllKeyed(segs: seq<Seg>)
    ensures KeyedById(LatestAll(segs))
  {
    if segs != [] {
      LatestAllKeyed(segs[..|segs| - 1]);
      LatestKeyed(LatestAll(segs[..|segs| - 1]), segs[|segs| - 1].entries);
    }
  }

  /** What an ID's latest record is when the oldest segments are gone: the same one, or none. */
  lemma {:induction false} LatestSuffix(segs: seq<Seg>, k: nat, id: Str)
    requires k <= |segs|
    ensures id in LatestAll(segs[k..]) ==> id in LatestAll(segs) && LatestAll(segs[k..])[id] == LatestAll(segs)[id]
    decreases |segs|
  {
    if k < |segs| {
      var init, last := segs[..|segs| - 1], segs[|segs| - 1].entries;
      assert segs[k..][..|segs[k..]| - 1] == init[k..];
      LatestSuffix(init, k, id);
      LatestMonotone(LatestAll(init[k..]), LatestAll(init), last, id);
    }
  }

  lemma {:induction false} LatestMonotone(small: map<Str, Entry>, large: map<Str, Entry>, entries: seq<Entry>, id: Str)
    requires id in small ==> id in large && small[id] == large[id]
    ensures id in Latest(small, entries) ==>
      id in Latest(large, entries) && Latest(small, entries)[id] == Latest(large, entries)[id]
  {
    if entries != [] {
      LatestMonotone(small, large, entries[..|entries| - 1], id);
    }
  }

  /** Overlaying the merged records on what any suffix of the old segments shows gives what all of them showed: what
      is live is in the merge, and what was deleted has lost its older versions before its tombstone. */
  lemma MergeOverSuffix(segs: seq<Seg>, k: nat, merged: seq<Entry>)
    requires k <= |segs| && Merges(LatestAll(segs), merged)
    ensures Overlay(OverlayAll(segs[k..]), merged) == OverlayAll(segs)
  {
    LiveOfLatestAll(segs);
    LiveOfLatestAll(segs[k..]);
    LatestAllKeyed(segs);
    var all, some := LatestAll(segs), LatestAll(segs[k..]);
    var r := Overlay(Live(some), merged);
    hide LatestAll, Overlay, OverlayAll;
    forall id ensures (id in r <==> id in Live(all)) && (id in r ==> r[id] == Live(all)[id]) {
      LatestSuffix(segs, k, id);
      OverlayPointwise(Live(some), merged, id);
      if id in all && !all[id].deleted {
        assert all[id] in merged;
      } else {
        forall i | 0 <= i < |merged| ensures merged[i].document.id != id {
          assert merged[i] in merged;
        }
      }
    }
  }

  lemma OverlayAllSnoc(segs: seq<Seg>, s: Seg)
    ensures OverlayAll(segs + [s]) == Overlay(OverlayAll(segs), s.entries)
  {
    assert (segs + [s])[..|segs|] == segs;
  }

  /** Compaction shows the same documents at every point where it can stop: before the merged segment appears, and
      after any number of old segments, oldest first, has been removed. */
  lemma CompactionPreservesDocuments(segs: seq<Seg>, merged: Seg, k: nat)
    requires k <= |segs| && Merges(LatestAll(segs), merged.entries)
    ensures OverlayAll(segs[k..] + [merged]) == OverlayAll(segs)
  {
    MergeOverSuffix(segs, k, merged.entries);
    OverlayAllSnoc(segs[k..], merged);
  }

  /** Removing newest first would not: this store shows a deleted document again once its tombstone goes first. */
  lemma NewestFirstWouldResurrect(d: Document)
    ensures var segs := [Seg(1, [Entry(d, false)]), Seg(2, [Entry(Document(d.id, [], []), true)])];
      && OverlayAll(segs) == map[] && Merges(LatestAll(segs), [])
      && OverlayAll([segs[0]] + [Seg(3, [])]) == map[d.id := d]
  {
    var a, b := Entry(d, false), Entry(Document(d.id, [], []), true);
    var s, t, u := Seg(1, [a]), Seg(2, [b]), Seg(3, []);
    OverlayAllSnoc([], s);
    OverlayAllSnoc([s], t);
    OverlayAllSnoc([s], u);
    assert [] + [s] == [s] && [s] + [t] == [s, t];
    assert [a][..0] == [] && [b][..0] == [];
    assert Overlay(map[], [a]) == map[d.id := d];
    assert [s, t][..1] == [s] && [s][..0] == [];
    assert Latest(map[], [a]) == map[d.id := a];
    assert Latest(map[d.id := a], [b]) == map[d.id := b];
    assert LatestAll([s]) == Latest(LatestAll([]), [a]);
    assert LatestAll([s, t]) == Latest(LatestAll([s]), [b]);
  }

  // ---------------------------------------------------------------------------
  // Listing a directory

  predicate Before(a: nat, b: nat) { a < b }

  ghost function Generations(files: Files): (r: seq<nat>)
    ensures StrictlySorted(Before, r) && Elements(r) == files.Keys && |r| == |files|
  {
    SortStrictly(Before, Listing(files.Keys));
    Sort(Before, Listing(files.Keys))
  }

  lemma GenerationsAre(files: Files, r: seq<nat>)
    requires StrictlySorted(Before, r) && Elements(r) == files.Keys
    ensures Generations(files) == r
  {
    StrictListingUnique(Before, Generations(files), r);
  }

  lemma GenerationsBelow(files: Files, i: nat)
    requires i < |Generations(files)|
    ensures Generations(files)[i] in files
  {
    assert Generations(files)[i] in Elements(Generations(files));
  }

  lemma NewestListed(files: Files, generation: nat)
    requires forall g :: g in files ==> g < generation
    ensures StrictlySorted(Before, Generations(files) + [generation])
    ensures Elements(Generations(files) + [generation]) == files.Keys + {generation}
  {
    var gs := Generations(files);
    hide Generations;
    ElementsSnoc(gs, generation);
    forall i | 0 <= i < |gs| ensures Before(gs[i], generation) {
      assert gs[i] in Elements(gs);
    }
  }

  lemma DropTaken(gs: seq<nat>, k: nat)
    requires k <= |gs| && StrictlySorted(Before, gs)
    ensures Elements(gs[k..]) == Elements(gs) - Elements(gs[..k])
  {
    assert gs == gs[..k] + gs[k..];
    forall g | g in gs[k..] ensures g !in gs[..k] {
      var i :| 0 <= i < |gs[k..]| && gs[k..][i] == g;
      forall j | 0 <= j < k ensures gs[..k][j] != g {
        assert Before(gs[j], gs[k + i]);
      }
    }
  }

  lemma OldestDropped(files: Files, k: nat)
    requires k <= |Generations(files)|
    ensures StrictlySorted(Before, Generations(files)[k..])
    ensures Elements(Generations(files)[k..]) == files.Keys - Elements(Generations(files)[..k])
  {
    var gs := Generations(files);
    hide Generations;
    DropTaken(gs, k);
  }

  /** A file decodes, and to the generation in its name. */
  predicate Readable(kit: Kit, generation: nat, bytes: seq<Byte>) {
    ReadSegment(kit, bytes).Ok? && ReadSegment(kit, bytes).value.generation == generation
  }

  function SegOf(kit: Kit, generation: nat, bytes: seq<Byte>): Seg {
    Seg(generation, if Readable(kit, generation, bytes) then ReadSegment(kit, bytes).value.segment.entries else [])
  }

  function SegAt(kit: Kit, files: Files, generation: nat): (r: Seg)
    ensures r.generation == generation
  {
    if generation in files then SegOf(kit, generation, files[generation]) else Seg(generation, [])
  }

  function SegsAt(kit: Kit, files: Files, generations: seq<nat>): (r: seq<Seg>)
    ensures |r| == |generations|
    ensures forall i :: 0 <= i < |r| ==> r[i] == SegAt(kit, files, generations[i])
  {
    seq(|generations|, i requires 0 <= i < |generations| => SegAt(kit, files, generations[i]))
  }

  ghost predicate AllReadable(kit: Kit, files: Files) {
    forall g :: g in files ==> Readable(kit, g, files[g])
  }

  /** The segments of a directory, oldest first. */
  ghost function Listed(kit: Kit, files: Files): (r: seq<Seg>)
    ensures |r| == |files|
  {
    SegsAt(kit, files, Generations(files))
  }

  ghost function Shown(kit: Kit, files: Files): Image {
    OverlayAll(Listed(kit, files))
  }

  function NextGeneration(segs: seq<Seg>): nat {
    if segs == [] then 1 else (segs[|segs| - 1].generation + 1) % UINT64
  }

  lemma SegsAtFrame(kit: Kit, a: Files, b: Files, gs: seq<nat>)
    requires forall i :: 0 <= i < |gs| ==> gs[i] in a && gs[i] in b && a[gs[i]] == b[gs[i]]
    ensures SegsAt(kit, a, gs) == SegsAt(kit, b, gs)
  {
    hide SegOf;
  }

  lemma GenerationsWithNewest(files: Files, generation: nat, bytes: seq<Byte>)
    requires forall g :: g in files ==> g < generation
    ensures Generations(files[generation := bytes]) == Generations(files) + [generation]
  {
    hide Generations;
    NewestListed(files, generation);
    GenerationsAre(files[generation := bytes], Generations(files) + [generation]);
  }

  lemma SegsAtSnoc(kit: Kit, files: Files, gs: seq<nat>, generation: nat)
    ensures SegsAt(kit, files, gs + [generation]) == SegsAt(kit, files, gs) + [SegAt(kit, files, generation)]
  {
    hide SegAt;
  }

  /** A new file above all others lists after all others. */
  lemma ListedWithNewest(kit: Kit, files: Files, generation: nat, bytes: seq<Byte>)
    requires forall g :: g in files ==> g < generation
    ensures Listed(kit, files[generation := bytes]) == Listed(kit, files) + [SegOf(kit, generation, bytes)]
  {
    hide SegOf, Generations, SegsAt;
    var gs, next := Generations(files), files[generation := bytes];
    GenerationsWithNewest(files, generation, bytes);
    forall i | 0 <= i < |gs| ensures gs[i] in files && gs[i] in next && next[gs[i]] == files[gs[i]] {
      GenerationsBelow(files, i);
    }
    SegsAtFrame(kit, next, files, gs);
    SegsAtSnoc(kit, next, gs, generation);
  }

  /** Removing the oldest files leaves the rest of the list. */
  lemma ListedWithoutOldest(kit: Kit, files: Files, k: nat)
    requires k <= |files|
    ensures Listed(kit, files - Elements(Generations(files)[..k])) == Listed(kit, files)[k..]
  {
    hide SegOf, Generations;
    var gs := Generations(files);
    var left := files - Elements(gs[..k]);
    OldestDropped(files, k);
    GenerationsAre(left, gs[k..]);
    var rest := gs[k..];
    forall i | 0 <= i < |rest| ensures rest[i] in files && rest[i] in left && left[rest[i]] == files[rest[i]] {
      assert rest[i] in Elements(rest);
    }
    SegsAtFrame(kit, left, files, rest);
    assert SegsAt(kit, files, gs)[k..] == SegsAt(kit, files, rest);
  }

  // ---------------------------------------------------------------------------
  // Operations

  function Records(kit: Kit, mutations: seq<Mutation>): (r: seq<Entry>)
    ensures |r| == |mutations|
    ensures forall i :: 0 <= i < |r| ==>
      r[i] == Entry(mutations[i].document.(id := kit.trim(mutations[i].document.id)), mutations[i].deleted)
  {
    seq(|mutations|, i requires 0 <= i < |mutations| =>
      Entry(mutations[i].document.(id := kit.trim(mutations[i].document.id)), mutations[i].deleted))
  }

  /** Writing a segment of these records under the next generation, if the encoder accepts it. */
  ghost function Written(kit: Kit, files: Files, entries: seq<Entry>): Result<seq<Byte>> {
    WriteSegment(kit, NextGeneration(Listed(kit, files)), entries)
  }

  ghost function AfterWrite(kit: Kit, files: Files, entries: seq<Entry>): Files {
    if Written(kit, files, entries).Ok?
    then files[NextGeneration(Listed(kit, files)) := Written(kit, files, entries).value]
    else files
  }

  ghost function AfterPublish(kit: Kit, files: Files, mutations: seq<Mutation>): Files {
    if mutations == [] || !AllReadable(kit, files) then files else AfterWrite(kit, files, Records(kit, mutations))
  }

  /** Compaction that stops after removing `removed` old segments, or runs to its end. */
  ghost function AfterCompact(kit: Kit, files: Files, limit: int, merged: seq<Entry>, removed: nat): Files {
    if limit < 1 || !AllReadable(kit, files) || |files| <= limit || Written(kit, files, merged).Err? then files
    else AfterWrite(kit, files, merged) - Elements(Generations(files)[..Min(removed, |files|)])
  }

  /** The records a reader will find in a segment written from these. */
  ghost predicate ReaderAccepts(kit: Kit, entries: seq<Entry>) {
    var sorted := Sort(ById, entries);
    WithinLimits(sorted, TermList(BuildPostings(kit, sorted)))
  }

  /** All generations in use are below the next one, unless the counter is exhausted. */
  ghost predicate InOrder(kit: Kit, files: Files) {
    && AllReadable(kit, files)
    && forall g :: g in files ==> 0 < g < UINT64
  }

  lemma NewestIsLast(files: Files, g: nat)
    requires g in files
    ensures g <= Generations(files)[|files| - 1]
  {
    var gs := Generations(files);
    hide Generations;
    assert g in Elements(gs);
    var i :| 0 <= i < |gs| && gs[i] == g;
    assert i < |gs| - 1 ==> Before(gs[i], gs[|gs| - 1]);
  }

  lemma NextIsNewest(kit: Kit, files: Files)
    requires InOrder(kit, files) && NextGeneration(Listed(kit, files)) != 0
    ensures forall g :: g in files ==> g < NextGeneration(Listed(kit, files))
    ensures NextGeneration(Listed(kit, files)) < UINT64
  {
    hide Generations, AllReadable, SegAt;
    if files != map[] {
      GenerationsBelow(files, |files| - 1);
      forall g | g in files ensures g <= Generations(files)[|files| - 1] {
        NewestIsLast(files, g);
      }
    }
  }

  /** What a reader finds in a file written from these records. */
  lemma StoredReads(kit: Kit, generation: nat, entries: seq<Entry>)
    requires ValidKit(kit) && generation < UINT64 && WriteSegment(kit, generation, entries).Ok?
    ensures var bytes := WriteSegment(kit, generation, entries).value;
      && (Readable(kit, generation, bytes) <==> ReaderAccepts(kit, entries))
      && (ReaderAccepts(kit, entries) ==>
           SegOf(kit, generation, bytes) == Seg(generation, StrippedAll(Sort(ById, entries))))
  {
    hide Sort, StrippedAll, ReadSegment, WriteSegment, WithinLimits, TermList, BuildPostings;
    SegmentReadsBack(kit, generation, entries);
  }

  lemma WrittenGeneration(kit: Kit, files: Files, entries: seq<Entry>)
    requires InOrder(kit, files) && Written(kit, files, entries).Ok?
    ensures 0 < NextGeneration(Listed(kit, files)) < UINT64
    ensures forall g :: g in files ==> g < NextGeneration(Listed(kit, files))
  {
    hide Listed, EncodePayload, Header, AllReadable;
    NextIsNewest(kit, files);
  }

  lemma OneMoreReadable(kit: Kit, files: Files, generation: nat, bytes: seq<Byte>)
    requires InOrder(kit, files) && 0 < generation < UINT64 && Readable(kit, generation, bytes)
    ensures InOrder(kit, files[generation := bytes])
  {
    hide Readable;
  }

  /** A segment readers accept shows exactly the records it was written from. */
  lemma WriteShows(kit: Kit, files: Files, entries: seq<Entry>)
    requires ValidKit(kit) && InOrder(kit, files) && Written(kit, files, entries).Ok? && ReaderAccepts(kit, entries)
    ensures InOrder(kit, AfterWrite(kit, files, entries))
    ensures Listed(kit, AfterWrite(kit, files, entries)) ==
      Listed(kit, files) + [Seg(NextGeneration(Listed(kit, files)), StrippedAll(Sort(ById, entries)))]
  {
    hide Listed, Sort, StrippedAll, Readable, SegOf, WriteSegment, ReaderAccepts, InOrder, NextGeneration;
    var generation := NextGeneration(Listed(kit, files));
    var bytes := Written(kit, files, entries).value;
    WrittenGeneration(kit, files, entries);
    StoredReads(kit, generation, entries);
    OneMoreReadable(kit, files, generation, bytes);
    ListedWithNewest(kit, files, generation, bytes);
  }

  /** Sorting and stripping do not change what a batch of records with distinct IDs does. */
  lemma StoredShowsSame(kit: Kit, image: Image, entries: seq<Entry>)
    requires Accepted(kit, Sort(ById, entries))
    ensures Overlay(image, StrippedAll(Sort(ById, entries))) == Overlay(image, entries)
  {
    AcceptedIff(kit, entries);
    var sorted := Sort(ById, entries);
    hide Sort, Overlay, Accepted;
    var stored := StrippedAll(sorted);
    PermutedIds(entries, sorted);
    SameElements(entries, sorted);
    assert DistinctIds(stored);
    forall e | e in entries ensures Stripped(e) in stored {
      assert e in Elements(sorted);
      var i :| 0 <= i < |sorted| && sorted[i] == e;
      assert stored[i] == Stripped(e);
    }
    forall e | e in stored ensures exists x :: x in entries && Stripped(x) == e {
      var i :| 0 <= i < |stored| && stored[i] == e;
      assert sorted[i] in Elements(sorted);
    }
    OverlaySameEntries(image, entries, stored);
  }

  lemma WrittenAccepted(kit: Kit, files: Files, entries: seq<Entry>)
    requires Written(kit, files, entries).Ok?
    ensures Accepted(kit, Sort(ById, entries))
  {
    hide Sort, Accepted, NextGeneration, Listed, PayloadBytes;
  }

  /** Publishing overlays the batch on what the store showed. */
  lemma PublishShows(kit: Kit, files: Files, entries: seq<Entry>)
    requires ValidKit(kit) && InOrder(kit, files) && Written(kit, files, entries).Ok? && ReaderAccepts(kit, entries)
    ensures InOrder(kit, AfterWrite(kit, files, entries))
    ensures Shown(kit, AfterWrite(kit, files, entries)) == Overlay(Shown(kit, files), entries)
  {
    hide Listed, Sort, Overlay, StrippedAll, OverlayAll, AfterWrite, InOrder, NextGeneration, ReaderAccepts, Accepted;
    WrittenAccepted(kit, files, entries);
    WriteShows(kit, files, entries);
    StoredShowsSame(kit, Shown(kit, files), entries);
    OverlayAllSnoc(Listed(kit, files), Seg(NextGeneration(Listed(kit, files)), StrippedAll(Sort(ById, entries))));
  }

  /** Stored in order of ID, a merge still lists the live records. */
  lemma MergedStored(kit: Kit, current: map<Str, Entry>, merged: seq<Entry>)
    requires Merges(current, merged)
    ensures Merges(current, StrippedAll(Sort(ById, merged)))
  {
    var sorted := Sort(ById, merged);
    hide Sort;
    PermutedIds(merged, sorted);
    SameElements(merged, sorted);
    var stored := StrippedAll(sorted);
    forall i | 0 <= i < |stored| ensures stored[i] == sorted[i] && sorted[i] in merged {
      assert sorted[i] in Elements(sorted);
    }
    assert stored == sorted;
    forall e | e in merged ensures e in stored { assert e in Elements(sorted); }
    forall e | e in stored ensures e in merged { assert e in Elements(sorted); }
  }

  lemma OldestOfWritten(kit: Kit, files: Files, merged: seq<Entry>, k: nat)
    requires InOrder(kit, files) && Written(kit, files, merged).Ok? && k <= |files|
    ensures k <= |AfterWrite(kit, files, merged)|
    ensures Generations(AfterWrite(kit, files, merged))[..k] == Generations(files)[..k]
  {
    hide Listed, Generations, WriteSegment, InOrder, NextGeneration;
    WrittenGeneration(kit, files, merged);
    GenerationsWithNewest(files, NextGeneration(Listed(kit, files)), Written(kit, files, merged).value);
  }

  lemma FewerInOrder(kit: Kit, files: Files, gone: set<nat>)
    requires InOrder(kit, files)
    ensures InOrder(kit, files - gone)
  {
    hide Readable;
  }

  lemma DropOfSnoc<T>(s: seq<T>, x: T, k: nat)
    requires k <= |s|
    ensures (s + [x])[k..] == s[k..] + [x]
  {
  }

  /** What is left when compaction stops after removing `k` old segments. */
  lemma CompactedList(kit: Kit, files: Files, merged: seq<Entry>, k: nat)
    requires ValidKit(kit) && InOrder(kit, files) && Written(kit, files, merged).Ok? && ReaderAccepts(kit, merged)
    requires k <= |files|
    ensures var left := AfterWrite(kit, files, merged) - Elements(Generations(files)[..k]);
      && InOrder(kit, left)
      && Listed(kit, left) ==
           Listed(kit, files)[k..] + [Seg(NextGeneration(Listed(kit, files)), StrippedAll(Sort(ById, merged)))]
  {
    hide *;
    WriteShows(kit, files, merged);
    OldestOfWritten(kit, files, merged, k);
    ListedWithoutOldest(kit, AfterWrite(kit, files, merged), k);
    FewerInOrder(kit, AfterWrite(kit, files, merged), Elements(Generations(files)[..k]));
    DropOfSnoc(Listed(kit, files), Seg(NextGeneration(Listed(kit, files)), StrippedAll(Sort(ById, merged))), k);
  }

  /** Compaction, stopped at any point, leaves a readable store that shows the same documents. */
  lemma CompactShows(kit: Kit, files: Files, limit: int, merged: seq<Entry>, removed: nat)
    requires ValidKit(kit) && InOrder(kit, files)
    requires Merges(LatestAll(Listed(kit, files)), merged) && ReaderAccepts(kit, merged)
    ensures InOrder(kit, AfterCompact(kit, files, limit, merged, removed))
    ensures Shown(kit, AfterCompact(kit, files, limit, merged, removed)) == Shown(kit, files)
  {
    hide Listed, Sort, StrippedAll, Generations, LatestAll, OverlayAll, Written, ReaderAccepts, Merges, AfterWrite,
      InOrder,
      NextGeneration, AllReadable;
    if AfterCompact(kit, files, limit, merged, removed) != files {
      var k := Min(removed, |files|);
      CompactedList(kit, files, merged, k);
      MergedStored(kit, LatestAll(Listed(kit, files)), merged);
      CompactionPreservesDocuments(Listed(kit, files),
        Seg(NextGeneration(Listed(kit, files)), StrippedAll(Sort(ById, merged))), k);
    }
  }
}
