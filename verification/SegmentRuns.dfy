/** Whole runs of a segment store: batches published one after another, and compactions that may stop anywhere. */
module SegmentRuns {

  import opened Bytes
  import opened Ordering
  import opened Encoding
  import opened Documents
  import opened SegmentCodec
  import opened SegmentFile
  import opened SegmentStore

  /** `removed` is how many old segments a compaction removed before it ended or stopped. */
  datatype Event =
    | Published(mutations: seq<Mutation>)
    | Compacted(limit: int, merged: seq<Entry>, removed: nat)

  function Batch(kit: Kit, event: Event): seq<Entry> {
    match event
    case Published(mutations) => Records(kit, mutations)
    case Compacted(_, merged, _) => merged
  }

  /** The event puts a new segment in place. */
  ghost predicate Writes(kit: Kit, files: Files, event: Event) {
    && AllReadable(kit, files) && Written(kit, files, Batch(kit, event)).Ok?
    && (event.Published? ==> event.mutations != [])
    && (event.Compacted? ==> 1 <= event.limit < |files|)
  }

  ghost function AfterEvent(kit: Kit, files: Files, event: Event): Files {
    match event
    case Published(mutations) => AfterPublish(kit, files, mutations)
    case Compacted(limit, merged, removed) => AfterCompact(kit, files, limit, merged, removed)
  }

  /** What an event writes is within what readers accept. */
  ghost predicate Accepting(kit: Kit, files: Files, event: Event) {
    Writes(kit, files, event) ==> ReaderAccepts(kit, Batch(kit, event))
  }

  /** What a compaction writes is the live records in some order. */
  ghost predicate Merging(kit: Kit, files: Files, event: Event) {
    event.Compacted? && Writes(kit, files, event) ==> Merges(LatestAll(Listed(kit, files)), event.merged)
  }

  ghost predicate Admissible(kit: Kit, files: Files, event: Event) {
    Accepting(kit, files, event) && Merging(kit, files, event)
  }

  ghost function After(kit: Kit, files: Files, events: seq<Event>): Files {
    if events == [] then files
    else AfterEvent(kit, After(kit, files, events[..|events| - 1]), events[|events| - 1])
  }

  ghost predicate AdmissibleRun(kit: Kit, files: Files, events: seq<Event>) {
    forall i :: 0 <= i < |events| ==> Admissible(kit, After(kit, files, events[..i]), events[i])
  }

  /** The image after every batch that was really published, compactions ignored. */
  ghost function History(kit: Kit, files: Files, events: seq<Event>): Image {
    if events == [] then Shown(kit, files)
    else
      var init, last := events[..|events| - 1], events[|events| - 1];
      var image := History(kit, files, init);
      if last.Published? && Writes(kit, After(kit, files, init), last) then Overlay(image, Batch(kit, last)) else image
  }

  ghost function NewestOf(files: Files): nat {
    if files == map[] then 0 else Generations(files)[|files| - 1]
  }

  /** The generations written during a run, in the order they were written. */
  ghost function Issued(kit: Kit, files: Files, events: seq<Event>): seq<nat> {
    if events == [] then []
    else
      var init := events[..|events| - 1];
      Issued(kit, files, init) +
      (if Writes(kit, After(kit, files, init), events[|events| - 1])
       then [NextGeneration(Listed(kit, After(kit, files, init)))] else [])
  }

  // ---------------------------------------------------------------------------
  // One event

  lemma EventShows(kit: Kit, files: Files, event: Event)
    requires ValidKit(kit) && InOrder(kit, files) && Admissible(kit, files, event)
    ensures InOrder(kit, AfterEvent(kit, files, event))
    ensures Shown(kit, AfterEvent(kit, files, event)) ==
      if event.Published? &&
        Writes(kit, files, event) then Overlay(Shown(kit, files), Batch(kit, event)) else Shown(kit, files)
  {
    hide Shown, Overlay, ReaderAccepts, Merges, Listed, Written, AllReadable, LatestAll, Generations, Records;
    if !Writes(kit, files, event) {
      QuietEvent(kit, files, event);
    } else {
      match event {
        case Published(mutations) => PublishShows(kit, files, Records(kit, mutations));
        case Compacted(limit, merged, removed) => CompactShows(kit, files, limit, merged, removed);
      }
    }
  }

  lemma NewestOfSegs(kit: Kit, files: Files, segs: seq<Seg>, last: Seg)
    requires Listed(kit, files) == segs + [last]
    ensures NewestOf(files) == last.generation
  {
    hide Generations, SegAt;
    var gs := Generations(files);
    assert |gs| == |segs| + 1;
    assert Listed(kit, files)[|segs|] == SegAt(kit, files, gs[|segs|]);
  }

  lemma NewestIsMax(kit: Kit, files: Files, generation: nat)
    requires generation > 0 && forall g :: g in files ==> g < generation
    ensures NewestOf(files) < generation
  {
    hide Generations;
    if files != map[] {
      GenerationsBelow(files, |files| - 1);
    }
  }

  lemma QuietEvent(kit: Kit, files: Files, event: Event)
    requires !Writes(kit, files, event)
    ensures AfterEvent(kit, files, event) == files
  {
    hide Written, AllReadable, Records, Generations;
  }

  /** The new segment in place and the `k` oldest gone. */
  ghost function Left(kit: Kit, files: Files, event: Event, k: nat): Files
    requires k <= |files|
  {
    AfterWrite(kit, files, Batch(kit, event)) - Elements(Generations(files)[..k])
  }

  lemma WritingEvent(kit: Kit, files: Files, event: Event)
    requires Writes(kit, files, event)
    ensures exists k :: 0 <= k <= |files| && AfterEvent(kit, files, event) == Left(kit, files, event, k)
  {
    hide Written, AllReadable, Records, Generations, AfterWrite;
    var k := if event.Published? then 0 else Min(event.removed, |files|);
    assert Elements(Generations(files)[..0]) == {};
    assert AfterEvent(kit, files, event) == Left(kit, files, event, k);
  }

  /** A write takes a generation above every one before it, and that segment is not the one removed. */
  lemma EventGeneration(kit: Kit, files: Files, event: Event)
    requires ValidKit(kit) && InOrder(kit, files) && Admissible(kit, files, event)
    ensures NewestOf(AfterEvent(kit, files, event)) ==
      if Writes(kit, files, event) then NextGeneration(Listed(kit, files)) else NewestOf(files)
    ensures Writes(kit, files, event) ==> NextGeneration(Listed(kit, files)) > NewestOf(files)
  {
    hide Generations, Listed, Written, AllReadable, Records, ReaderAccepts, Merges, LatestAll, AfterWrite,
      NextGeneration,
      NewestOf, AfterEvent, InOrder, StrippedAll, Sort;
    if Writes(kit, files, event) {
      var batch := Batch(kit, event);
      WritingEvent(kit, files, event);
      var k :| 0 <= k <= |files| && AfterEvent(kit, files, event) == Left(kit, files, event, k);
      WrittenGeneration(kit, files, batch);
      NewestIsMax(kit, files, NextGeneration(Listed(kit, files)));
      CompactedList(kit, files, batch, k);
      NewestOfSegs(kit, AfterEvent(kit, files, event), Listed(kit, files)[k..],
                   Seg(NextGeneration(Listed(kit, files)), StrippedAll(Sort(ById, batch))));
    } else {
      QuietEvent(kit, files, event);
    }
  }

  // ---------------------------------------------------------------------------
  // Whole runs

  lemma AdmissiblePrefix(kit: Kit, files: Files, events: seq<Event>)
    requires AdmissibleRun(kit, files, events) && events != []
    ensures AdmissibleRun(kit, files, events[..|events| - 1])
    ensures Admissible(kit, After(kit, files, events[..|events| - 1]), events[|events| - 1])
  {
    hide Admissible, After;
    var init := events[..|events| - 1];
    forall i | 0 <= i < |init| ensures Admissible(kit, After(kit, files, init[..i]), init[i]) {
      assert init[..i] == events[..i];
    }
  }

  /** After any run the store is readable and shows exactly the published batches applied in order, however many
      compactions ran and wherever they stopped. */
  lemma {:induction false} EveryRunShowsHistory(kit: Kit, files: Files, events: seq<Event>)
    requires ValidKit(kit) && InOrder(kit, files) && AdmissibleRun(kit, files, events)
    ensures InOrder(kit, After(kit, files, events))
    ensures Shown(kit, After(kit, files, events)) == History(kit, files, events)
  {
    hide InOrder, Shown, Admissible, AfterEvent, Writes, Overlay, AdmissibleRun, Batch;
    if events != [] {
      AdmissiblePrefix(kit, files, events);
      EveryRunShowsHistory(kit, files, events[..|events| - 1]);
      EventShows(kit, After(kit, files, events[..|events| - 1]), events[|events| - 1]);
    }
  }

  /** `issued` rises strictly from above `low` and ends at `high`. */
  ghost predicate Climbs(low: nat, issued: seq<nat>, high: nat) {
    && (forall i, j :: 0 <= i < j < |issued| ==> issued[i] < issued[j])
    && (forall i :: 0 <= i < |issued| ==> low < issued[i] <= high)
    && high == if issued == [] then low else issued[|issued| - 1]
  }

  lemma ClimbSnoc(low: nat, issued: seq<nat>, high: nat, x: nat)
    requires Climbs(low, issued, high) && x > high
    ensures Climbs(low, issued + [x], x)
  {
  }

  /** Generations strictly increase over a run: none is ever issued again, not even one whose file is gone. */
  lemma {:induction false} GenerationsIncrease(kit: Kit, files: Files, events: seq<Event>)
    requires ValidKit(kit) && InOrder(kit, files) && AdmissibleRun(kit, files, events)
    ensures Climbs(NewestOf(files), Issued(kit, files, events), NewestOf(After(kit, files, events)))
  {
    if events == [] {
    } else {
      hide InOrder, Admissible, AfterEvent, Writes, AdmissibleRun, NewestOf, NextGeneration, Listed, Climbs;
      var init := events[..|events| - 1];
      AdmissiblePrefix(kit, files, events);
      EveryRunShowsHistory(kit, files, init);
      GenerationsIncrease(kit, files, init);
      var mid := After(kit, files, init);
      EventGeneration(kit, mid, events[|events| - 1]);
      if Writes(kit, mid, events[|events| - 1]) {
        ClimbSnoc(NewestOf(files), Issued(kit, files, init), NewestOf(mid), NextGeneration(Listed(kit, mid)));
      } else {
        assert Issued(kit, files, init) + [] == Issued(kit, files, init);
      }
    }
  }

  /** A written segment that readers will not accept makes every later listing fail; otherwise the store stays
      readable. */
  lemma ReadableAfterWriteIff(kit: Kit, files: Files, entries: seq<Entry>)
    requires ValidKit(kit) && InOrder(kit, files) && Written(kit, files, entries).Ok?
    ensures AllReadable(kit, AfterWrite(kit, files, entries)) <==> ReaderAccepts(kit, entries)
  {
    hide Listed, WriteSegment, ReaderAccepts, NextGeneration, Readable, SegOf;
    var generation := NextGeneration(Listed(kit, files));
    WrittenGeneration(kit, files, entries);
    StoredReads(kit, generation, entries);
    assert generation in AfterWrite(kit, files, entries);
  }

  // ---------------------------------------------------------------------------
  // When the store stays readable

  /** A segment that readers do not accept stays in the store, wherever the event stops. */
  lemma PoisonedEvent(kit: Kit, files: Files, event: Event)
    requires ValidKit(kit) && InOrder(kit, files) && Writes(kit, files, event) && !ReaderAccepts(kit, Batch(kit, event))
    ensures !AllReadable(kit, AfterEvent(kit, files, event))
  {
    hide Listed, WriteSegment, ReaderAccepts, NextGeneration, Readable, SegOf, Generations, AfterEvent, Records,
      InOrder;
    var batch, generation := Batch(kit, event), NextGeneration(Listed(kit, files));
    WrittenGeneration(kit, files, batch);
    StoredReads(kit, generation, batch);
    WritingEvent(kit, files, event);
    var k :| 0 <= k <= |files| && AfterEvent(kit, files, event) == Left(kit, files, event, k);
    forall i | 0 <= i < k ensures Generations(files)[..k][i] != generation {
      GenerationsBelow(files, i);
    }
    assert generation in AfterEvent(kit, files, event);
  }

  ghost predicate MergingRun(kit: Kit, files: Files, events: seq<Event>) {
    forall i :: 0 <= i < |events| ==> Merging(kit, After(kit, files, events[..i]), events[i])
  }

  ghost predicate AcceptingRun(kit: Kit, files: Files, events: seq<Event>) {
    forall i :: 0 <= i < |events| ==> Accepting(kit, After(kit, files, events[..i]), events[i])
  }

  lemma RunPrefix(kit: Kit, files: Files, events: seq<Event>, k: nat)
    requires k <= |events|
    ensures MergingRun(kit, files, events) ==> MergingRun(kit, files, events[..k])
    ensures AcceptingRun(kit, files, events) ==> AcceptingRun(kit, files, events[..k])
  {
    hide Merging, Accepting, After;
    forall i | 0 <= i < k ensures events[..k][..i] == events[..i] && events[..k][i] == events[i] {}
  }

  lemma BothAdmissible(kit: Kit, files: Files, events: seq<Event>)
    requires MergingRun(kit, files, events) && AcceptingRun(kit, files, events)
    ensures AdmissibleRun(kit, files, events)
  {
    hide Merging, Accepting, After;
  }

  /** The store stays readable all along if and only if every batch that is written is within what readers accept. */
  lemma {:induction false} ReadableThroughoutIff(kit: Kit, files: Files, events: seq<Event>)
    requires ValidKit(kit) && InOrder(kit, files) && MergingRun(kit, files, events)
    ensures (forall k :: 0 <= k <= |events| ==> AllReadable(kit, After(kit, files, events[..k]))) <==>
      AcceptingRun(kit, files, events)
    decreases |events|
  {
    hide InOrder, AllReadable, MergingRun, AcceptingRun, AdmissibleRun, AfterEvent, Shown, History;
    if AcceptingRun(kit, files, events) {
      forall k | 0 <= k <= |events| ensures AllReadable(kit, After(kit, files, events[..k])) {
        RunPrefix(kit, files, events, k);
        BothAdmissible(kit, files, events[..k]);
        EveryRunShowsHistory(kit, files, events[..k]);
        InOrderReadable(kit, After(kit, files, events[..k]));
      }
    } else {
      SomeRefused(kit, files, events);
      var n := |events| - 1;
      RunPrefix(kit, files, events, n);
      assert events[..|events|] == events;
      if AcceptingRun(kit, files, events[..n]) {
        BothAdmissible(kit, files, events[..n]);
        EveryRunShowsHistory(kit, files, events[..n]);
        LastRefused(kit, files, events);
        PoisonedEvent(kit, After(kit, files, events[..n]), events[n]);
        assert !AllReadable(kit, After(kit, files, events[..|events|]));
      } else {
        ReadableThroughoutIff(kit, files, events[..n]);
        var k :| 0 <= k <= n && !AllReadable(kit, After(kit, files, events[..n][..k]));
        assert events[..n][..k] == events[..k];
      }
    }
  }

  lemma SomeRefused(kit: Kit, files: Files, events: seq<Event>)
    requires !AcceptingRun(kit, files, events)
    ensures events != []
  {
  }

  lemma LastRefused(kit: Kit, files: Files, events: seq<Event>)
    requires events != [] && !AcceptingRun(kit, files, events) && AcceptingRun(kit, files, events[..|events| - 1])
    ensures !Accepting(kit, After(kit, files, events[..|events| - 1]), events[|events| - 1])
  {
    hide Accepting, After;
    var n := |events| - 1;
    forall i | 0 <= i < n ensures Accepting(kit, After(kit, files, events[..i]), events[i]) {
      assert events[..n][..i] == events[..i] && events[..n][i] == events[i];
    }
  }

  // ---------------------------------------------------------------------------
  // A batch that is written and never read again

  /** One byte longer than readers accept. */
  function LongId(): (id: Str)
    ensures |id| == MAX_STRING + 1
  {
    seq(MAX_STRING + 1, _ => 97)
  }

  function LongTombstone(): Entry { Entry(Document(LongId(), [], []), true) }

  lemma TombstoneHasNoTerms(kit: Kit, e: Entry)
    requires e.deleted
    ensures BuildPostings(kit, [e]) == map[] && TermList(map[]) == []
  {
    hide TermList;
    assert [e][..0] == [];
    assert BuildPostings(kit, []) == map[];
    assert TermsOf(kit, e) == {};
    assert |TermList(map[])| == 0;
  }

  lemma OneSorted(e: Entry)
    ensures Sort(ById, [e]) == [e]
  {
    assert [e][1..] == [];
  }

  lemma LongPayloadFits()
    ensures |PayloadBytes([LongTombstone()], [])| <= MAX_PAYLOAD
  {
    var e := LongTombstone();
    assert [e][1..] == [];
    assert SevenBits(4) == 0x1000_0000;
    UvarintLength(1, 4);
    UvarintLength(0, 4);
    UvarintLength(MAX_STRING + 1, 4);
    hide PutUvarint, SevenBits, LongId;
  }

  /** The encoder accepts a deletion whose ID is one byte too long, and readers do not. */
  lemma LongIdIsWritten(kit: Kit)
    requires kit.trim(LongId()) != []
    ensures EncodePayload(kit, [LongTombstone()]).Ok? && !ReaderAccepts(kit, [LongTombstone()])
  {
    var e := LongTombstone();
    OneSorted(e);
    TombstoneHasNoTerms(kit, e);
    LongPayloadFits();
    hide Sort, BuildPostings, TermList, PayloadBytes, LongId;
    assert [e][0] == e;
  }

  /** So one such publish makes any store unreadable. */
  lemma LongIdPoisons(kit: Kit, files: Files)
    requires ValidKit(kit) && InOrder(kit, files) && NextGeneration(Listed(kit, files)) != 0
    requires kit.trim(LongId()) == LongId()
    ensures !AllReadable(kit, AfterPublish(kit, files, [Mutation(Document(LongId(), [], []), true)]))
  {
    hide Listed, NextGeneration, EncodePayload, ReaderAccepts, LongId, AllReadable, AfterWrite, Header;
    var m := Mutation(Document(LongId(), [], []), true);
    assert LongId() != [];
    LongIdIsWritten(kit);
    assert Records(kit, [m]) == [LongTombstone()];
    assert Written(kit, files, [LongTombstone()]).Ok?;
    InOrderReadable(kit, files);
    ReadableAfterWriteIff(kit, files, [LongTombstone()]);
  }

  lemma InOrderReadable(kit: Kit, files: Files)
    requires InOrder(kit, files)
    ensures AllReadable(kit, files)
  {
  }
}
