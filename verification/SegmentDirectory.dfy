/** The segment store as an object over its directory, refining the operations of `SegmentStore`. */
module SegmentDirectory {

  import opened Bytes
  import opened Ordering
  import opened Encoding
  import opened Documents
  import opened SegmentCodec
  import opened SegmentFile
  import opened SegmentBuffers
  import opened SegmentStore
  import opened SegmentEffects

  datatype StoreError = NothingToPublish | InvalidLimit | Unreadable(cause: Error) | NotWritten(cause: Error) |
    NotRemoved

  datatype Outcome<+T> = Done(value: T) | Failed(error: StoreError)

  method ReadFile(kit: Kit, bytes: seq<Byte>) returns (r: Result<Stored>)
    ensures r == ReadSegment(kit, bytes)
  {
    hide DecodePayload, GetBE;
    if |bytes| < HEADER_SIZE || bytes[..8] != MAGIC { return Err(Invalid); }
    if GetBE(bytes[8..10]) != 1 { return Err(UnsupportedVersion); }
    if GetBE(bytes[10..12]) != HEADER_SIZE { return Err(Invalid); }
    var generation, size := GetBE(bytes[12..20]), GetBE(bytes[20..28]);
    if generation == 0 || size > MAX_PAYLOAD || |bytes| != HEADER_SIZE + size { return Err(Invalid); }
    var payload := bytes[HEADER_SIZE..];
    if kit.checksum(payload) != bytes[28..HEADER_SIZE] { return Err(ChecksumMismatch); }
    var segment := Decode(kit, payload);
    match segment {
      case Err(e) => return Err(e);
      case Ok(s) => return Ok(Stored(generation, s));
    }
  }

  method WriteFile(kit: Kit, generation: nat, entries: seq<Entry>) returns (r: Result<seq<Byte>>)
    ensures r == WriteSegment(kit, generation, entries)
  {
    hide EncodePayload, Header;
    if generation == 0 { return Err(Invalid); }
    var payload := Encode(kit, entries);
    match payload {
      case Err(e) => return Err(e);
      case Ok(p) => return Ok(Header(kit, generation, p) + p);
    }
  }

  /** The generations of a directory, ascending, as its file names are listed. */
  method ListNames(files: Files) returns (r: seq<nat>)
    ensures r == Generations(files)
  {
    var rest := files.Keys;
    var names: seq<nat> := [];
    while rest != {}
      invariant rest <= files.Keys && Distinct(names) && Elements(names) == files.Keys - rest
    {
      var g :| g in rest;
      assert g !in Elements(names);
      ElementsSnoc(names, g);
      names := names + [g];
      rest := rest - {g};
    }
    SortStrictly(Before, names);
    r := Sort(Before, names);
    GenerationsAre(files, r);
  }

  predicate ByGeneration(a: Seg, b: Seg) { a.generation < b.generation }

  lemma {:induction false} SortOfSorted<T(!new)>(less: (T, T) -> bool, s: seq<T>)
    requires Sorted(less, s)
    ensures Sort(less, s) == s
  {
    if s != [] {
      SortOfSorted(less, s[1..]);
      assert |s| > 1 ==> !less(s[1], s[0]);
    }
  }

  lemma ListedSorted(kit: Kit, files: Files)
    ensures Sort(ByGeneration, Listed(kit, files)) == Listed(kit, files)
  {
    var segs, gs := Listed(kit, files), Generations(files);
    forall i, j | 0 <= i < j < |segs| ensures !ByGeneration(segs[j], segs[i]) {
      assert Before(gs[i], gs[j]);
    }
    SortOfSorted(ByGeneration, segs);
  }

  lemma SegsAtNext(kit: Kit, files: Files, gs: seq<nat>, i: nat)
    requires i < |gs|
    ensures SegsAt(kit, files, gs[..i + 1]) == SegsAt(kit, files, gs[..i]) + [SegAt(kit, files, gs[i])]
  {
    TakeNext(gs, i);
    SegsAtSnoc(kit, files, gs[..i], gs[i]);
  }

  lemma GenerationsAll(kit: Kit, files: Files)
    requires forall i :: 0 <= i < |files| ==>
      Generations(files)[i] in files && Readable(kit, Generations(files)[i], files[Generations(files)[i]])
    ensures AllReadable(kit, files)
  {
    hide Readable, Generations;
    forall g | g in files ensures Readable(kit, g, files[g]) {
      assert g in Elements(Generations(files));
    }
  }

  /** Reads one file under the name it has. */
  method ReadNamed(kit: Kit, files: Files, g: nat) returns (r: Result<Seg>)
    requires g in files
    ensures r.Ok? <==> Readable(kit, g, files[g])
    ensures r.Ok? ==> r.value == SegAt(kit, files, g)
  {
    hide ReadSegment;
    var stored := ReadFile(kit, files[g]);
    match stored {
      case Err(e) => return Err(e);
      case Ok(s) =>
        if s.generation != g { return Err(Invalid); }
        return Ok(Seg(g, s.segment.entries));
    }
  }

  /** Reads every segment, and fails on the first that does not decode or is not named by its generation. */
  method List(kit: Kit, files: Files) returns (r: Result<seq<Seg>>)
    ensures r.Ok? <==> AllReadable(kit, files)
    ensures r.Ok? ==> r.value == Listed(kit, files)
  {
    hide Readable, SegAt, SegsAt, Generations;
    var names := ListNames(files);
    var segs: seq<Seg> := [];
    assert SegsAt(kit, files, names[..0]) == [];
    for i := 0 to |names|
      invariant segs == SegsAt(kit, files, names[..i])
      invariant forall j :: 0 <= j < i ==> names[j] in files && Readable(kit, names[j], files[names[j]])
    {
      GenerationsBelow(files, i);
      var seg := ReadNamed(kit, files, names[i]);
      if seg.Err? { return Err(seg.error); }
      SegsAtNext(kit, files, names, i);
      segs := segs + [seg.value];
    }
    assert names[..|names|] == names;
    GenerationsAll(kit, files);
    ListedSorted(kit, files);
    return Ok(Sort(ByGeneration, segs));
  }

  /** Records one segment's records over those of older ones. */
  method Record(current: map<Str, Entry>, entries: seq<Entry>) returns (r: map<Str, Entry>)
    ensures r == Latest(current, entries)
  {
    r := current;
    for i := 0 to |entries|
      invariant r == Latest(current, entries[..i])
    {
      assert entries[..i + 1][..i] == entries[..i];
      r := r[entries[i].document.id := entries[i]];
    }
    assert entries[..|entries|] == entries;
  }

  /** The latest record of every ID. */
  method Collect(segs: seq<Seg>) returns (current: map<Str, Entry>)
    ensures current == LatestAll(segs)
  {
    hide Latest;
    current := map[];
    for i := 0 to |segs|
      invariant current == LatestAll(segs[..i])
    {
      assert segs[..i + 1][..i] == segs[..i];
      current := Record(current, segs[i].entries);
    }
    assert segs[..|segs|] == segs;
  }

  /** `merged` lists the live ones among the IDs in `done`. */
  ghost predicate MergesSome(current: map<Str, Entry>, merged: seq<Entry>, done: set<Str>) {
    && DistinctIds(merged)
    && (forall e :: e in merged ==> e.document.id in done * current.Keys && current[e.document.id] == e && !e.deleted)
    && (forall id :: id in done * current.Keys && !current[id].deleted ==> current[id] in merged)
  }

  lemma MergeNext(current: map<Str, Entry>, merged: seq<Entry>, done: set<Str>, id: Str)
    requires KeyedById(current) && MergesSome(current, merged, done) && id in current && id !in done
    ensures MergesSome(current, if current[id].deleted then merged else merged + [current[id]], done + {id})
  {
    var next := if current[id].deleted then merged else merged + [current[id]];
    forall i | 0 <= i < |merged| ensures merged[i].document.id != id {
      assert merged[i] in merged;
    }
    assert DistinctIds(next);
    forall e | e in next ensures e in merged || e == current[id] {}
  }

  /** The live records, in whatever order the map gives them. */
  method Survivors(current: map<Str, Entry>) returns (merged: seq<Entry>)
    requires KeyedById(current)
    ensures Merges(current, merged)
  {
    merged := [];
    var rest := current.Keys;
    while rest != {}
      invariant rest <= current.Keys && MergesSome(current, merged, current.Keys - rest)
    {
      var id :| id in rest;
      hide MergesSome;
      MergeNext(current, merged, current.Keys - rest, id);
      if !current[id].deleted {
        merged := merged + [current[id]];
      }
      assert current.Keys - rest + {id} == current.Keys - (rest - {id});
      rest := rest - {id};
    }
  }

  function Texts(entries: seq<Entry>): (r: seq<Document>)
    ensures |r| == |entries| && forall i :: 0 <= i < |r| ==> r[i] == entries[i].document
  {
    seq(|entries|, i requires 0 <= i < |entries| => entries[i].document)
  }

  lemma SurvivorsAreShown(current: map<Str, Entry>, merged: seq<Entry>)
    requires KeyedById(current) && Merges(current, merged)
    ensures Elements(Texts(merged)) == Live(current).Values && Distinct(Texts(merged))
    ensures forall i, j :: 0 <= i < j < |merged| ==> Texts(merged)[i].id != Texts(merged)[j].id
  {
    var texts, live := Texts(merged), Live(current);
    forall d | d in texts ensures d in live.Values {
      var i :| 0 <= i < |texts| && texts[i] == d;
      assert merged[i] in merged;
      assert d.id in live && live[d.id] == d;
    }
    forall d | d in live.Values ensures d in texts {
      var id :| id in live && live[id] == d;
      assert current[id] in merged;
      var i :| 0 <= i < |merged| && merged[i] == current[id];
      assert texts[i] == d;
    }
  }

  /** Segment files in one directory. */
  class Store {
    const kit: Kit
    var files: Files

    constructor (kit: Kit, files: Files)
      ensures this.kit == kit && this.files == files
    {
      this.kit := kit;
      this.files := files;
    }

    /** Writes a batch as the newest segment; on any failure nothing changes. */
    method Publish(mutations: seq<Mutation>) returns (r: Outcome<nat>)
      modifies this
      ensures files == AfterPublish(kit, old(files), mutations)
      ensures r.Done? <==>
        mutations != [] && AllReadable(kit, old(files)) && Written(kit, old(files), Records(kit, mutations)).Ok?
      ensures r.Done? ==> r.value == NextGeneration(Listed(kit, old(files)))
    {
      hide AllReadable, Listed, NextGeneration, WriteSegment;
      if mutations == [] { return Failed(NothingToPublish); }
      var records: seq<Entry> := [];
      for i := 0 to |mutations|
        invariant records == Records(kit, mutations)[..i]
      {
        records := records +
          [Entry(mutations[i].document.(id := kit.trim(mutations[i].document.id)), mutations[i].deleted)];
      }
      assert records == Records(kit, mutations);
      var segs := List(kit, files);
      if segs.Err? { return Failed(Unreadable(segs.error)); }
      var generation := NextGeneration(segs.value);
      var bytes := WriteFile(kit, generation, records);
      if bytes.Err? { return Failed(NotWritten(bytes.error)); }
      files := files[generation := bytes.value];
      return Done(generation);
    }

    /** Every document the store shows, each once, in order of ID. */
    method Documents() returns (r: Result<seq<Document>>)
      ensures r.Ok? <==> AllReadable(kit, files)
      ensures r.Ok? ==> StrictlySorted(DocumentBefore, r.value) && Elements(r.value) == Shown(kit, files).Values
    {
      hide AllReadable, Listed, LatestAll, OverlayAll, Live, Merges, KeyedById;
      var segs := List(kit, files);
      if segs.Err? { return Err(segs.error); }
      var current := Collect(segs.value);
      LatestAllKeyed(segs.value);
      var merged := Survivors(current);
      SurvivorsAreShown(current, merged);
      SortedDocuments(Texts(merged));
      LiveOfLatestAll(segs.value);
      return Ok(Sort(DocumentBefore, Texts(merged)));
    }

    /** Removes segments from the oldest on, and stops at the first that cannot be removed. */
    method RemoveEach(generations: seq<nat>, removable: nat) returns (ok: bool)
      modifies this
      ensures files == old(files) - Elements(generations[..Min(removable, |generations|)])
      ensures ok == (removable >= |generations|)
    {
      assert Elements(generations[..0]) == {};
      for k := 0 to |generations|
        invariant k <= removable
        invariant files == old(files) - Elements(generations[..k])
      {
        if k == removable { return false; }
        TakeNext(generations, k);
        ElementsSnoc(generations[..k], generations[k]);
        files := files - {generations[k]};
      }
      return true;
    }

    /** Merges everything into one segment, then removes the old ones from the oldest on. The first `removable` removals
        succeed. */
    method Compact(limit: int, removable: nat) returns (r: Outcome<bool>, ghost merged: seq<Entry>)
      modifies this
      ensures 1 <= limit < |old(files)| && AllReadable(kit, old(files)) ==>
        Merges(LatestAll(Listed(kit, old(files))), merged)
      ensures files == AfterCompact(kit, old(files), limit, merged, removable)
      ensures r.Done? <==>
        && limit >= 1 && AllReadable(kit, old(files))
        && (|old(files)| > limit ==> Written(kit, old(files), merged).Ok? && removable >= |old(files)|)
      ensures r.Done? ==> r.value == (|old(files)| > limit)
      ensures r == Done(true) && InOrder(kit, old(files)) ==>
        var next := NextGeneration(Listed(kit, old(files)));
        files.Keys == {next} && OneAbove(old(files), next)
      ensures r == Done(true) && InOrder(kit, old(files)) && ValidKit(kit) && ReaderAccepts(kit, merged) ==>
        Shown(kit, files) == Shown(kit, old(files))
    {
      hide AllReadable, Listed, NextGeneration, WriteSegment, LatestAll, Merges, Generations, KeyedById, Elements,
        Latest;
      merged := [];
      if limit < 1 { return Failed(InvalidLimit), merged; }
      var segs := List(kit, files);
      if segs.Err? { return Failed(Unreadable(segs.error)), merged; }
      if |segs.value| <= limit { return Done(false), merged; }
      var current := Collect(segs.value);
      LatestAllKeyed(segs.value);
      var live := Survivors(current);
      merged := live;
      var generation := NextGeneration(segs.value);
      var bytes := WriteFile(kit, generation, live);
      if bytes.Err? { return Failed(NotWritten(bytes.error)), merged; }
      files := files[generation := bytes.value];
      ListedNames(kit, old(files));
      var ok := RemoveEach(Names(segs.value), removable);
      if !ok { return Failed(NotRemoved), merged; }
      CompactLeaves(kit, old(files), limit, merged, removable);
      return Done(true), merged;
    }
  }

  /** A compaction that runs to its end leaves one file, and that shows what all of them showed. */
  lemma CompactLeaves(kit: Kit, files: Files, limit: int, merged: seq<Entry>, removed: nat)
    requires 1 <= limit < |files| <= removed && Written(kit, files, merged).Ok?
    requires Merges(LatestAll(Listed(kit, files)), merged)
    ensures var next, t := NextGeneration(Listed(kit, files)), AfterCompact(kit, files, limit, merged, removed);
      && (InOrder(kit, files) ==> t.Keys == {next} && OneAbove(files, next))
      && (InOrder(kit, files) && ValidKit(kit) && ReaderAccepts(kit, merged) ==> Shown(kit, t) == Shown(kit, files))
  {
    hide *;
    if InOrder(kit, files) {
      var next, gone := CompactEffect(kit, files, limit, merged, removed);
      WrittenOneAbove(kit, files, merged);
      OneAboveUnique(files, next, NextGeneration(Listed(kit, files)));
      if ValidKit(kit) && ReaderAccepts(kit, merged) {
        CompactShows(kit, files, limit, merged, removed);
      }
    }
  }

  function Names(segs: seq<Seg>): (r: seq<nat>)
    ensures |r| == |segs|
  {
    seq(|segs|, i requires 0 <= i < |segs| => segs[i].generation)
  }

  lemma ListedNames(kit: Kit, files: Files)
    ensures Names(Listed(kit, files)) == Generations(files)
  {
    hide Generations, SegAt;
  }
}
