/** The log as an object over a file with a cursor, refining the operations of `Wal`. */
module WalLogs {

  import opened Bytes
  import opened Encoding
  import opened Documents
  import opened WalCodec
  import opened Wal

  /** Reads the record that starts at a position of the file. */
  method ReadRecord(c: Codec, file: seq<Byte>, at: nat) returns (f: FrameRead)
    requires at <= |file|
    ensures f == ReadFrame(c, file[at..])
  {
    ghost var rest := file[at..];
    if |file| - at < FRAME_SIZE { return Torn; }
    var size := GetBE(file[at..at + 4]);
    assert rest[..4] == file[at..at + 4];
    if size == 0 || size > MAX_RECORD { return Bad(Corrupt); }
    if |file| - at < FRAME_SIZE + size { return Torn; }
    var payload := file[at + FRAME_SIZE..at + FRAME_SIZE + size];
    assert rest[FRAME_SIZE..FRAME_SIZE + size] == payload;
    assert rest[4..FRAME_SIZE] == file[at + 4..at + FRAME_SIZE];
    if c.checksum(payload) != GetBE(file[at + 4..at + FRAME_SIZE]) { return Bad(Corrupt); }
    var decoded := DecodePayload(c, payload);
    match decoded {
      case Err(e) => return Bad(e);
      case Ok(r) => return FrameRead.Whole(r, FRAME_SIZE + size);
    }
  }

  /** What a scan makes of the record at a position. */
  lemma ScanStep(c: Codec, file: seq<Byte>, at: nat, scan: Scan)
    requires at < |file|
    ensures var f := ReadFrame(c, file[at..]);
      && (f.Torn? ==> ScanRest(c, file[at..], scan) == Ok(scan.(tail := true)))
      && (f.Bad? ==> ScanRest(c, file[at..], scan) == Err(f.error))
      && (f.Whole? && !Follows(scan, f.record) ==> ScanRest(c, file[at..], scan) == Err(Corrupt))
      && (f.Whole? && Follows(scan, f.record) ==>
           at + f.size <= |file| &&
             ScanRest(c, file[at..], scan) == ScanRest(c, file[at + f.size..], Take(scan, f.record, f.size)))
  {
    hide ReadFrame, Follows, Take;
    var f := ReadFrame(c, file[at..]);
    if f.Whole? {
      assert file[at..][f.size..] == file[at + f.size..];
    }
  }

  /** Where a scan stops reading, seen from the record at a position. */
  lemma StopStep(c: Codec, file: seq<Byte>, at: nat, scan: Scan)
    requires at < |file|
    ensures var f, n := ReadFrame(c, file[at..]), ReadByScan(c, file[at..], scan);
      && (f.Torn? ==> n == |file| - at)
      && (f.Bad? ==> n == ReadForBad(file[at..]))
      && (f.Whole? && !Follows(scan, f.record) ==> n == f.size)
      && (f.Whole? && Follows(scan, f.record) ==>
           at + f.size <= |file| && n == f.size + ReadByScan(c, file[at + f.size..], Take(scan, f.record, f.size)))
  {
    hide ReadFrame, Follows, Take, ReadForBad;
    var f := ReadFrame(c, file[at..]);
    if f.Whole? {
      assert file[at..][f.size..] == file[at + f.size..];
    }
  }

  /** Reads a file from its start, record by record, and tells where it stopped reading. */
  method ScanFile(c: Codec, file: seq<Byte>) returns (r: Result<Scan>, cursor: nat)
    ensures r == ScanLog(c, file) && cursor == CursorAfterScan(c, file)
  {
    if |file| < HEADER_SIZE { return Err(Corrupt), |file|; }
    if file[..8] != MAGIC { return Err(Corrupt), HEADER_SIZE; }
    if GetBE(file[8..10]) != 1 { return Err(UnsupportedVersion), HEADER_SIZE; }
    if GetBE(file[10..12]) != HEADER_SIZE { return Err(Corrupt), HEADER_SIZE; }
    hide ScanRest, ReadByScan, GetBE;
    r, cursor := ScanRecords(c, file, StartScan(GetBE(file[12..HEADER_SIZE])));
  }

  /** Reads the records behind a header. */
  method ScanRecords(c: Codec, file: seq<Byte>, start: Scan) returns (r: Result<Scan>, cursor: nat)
    requires HEADER_SIZE <= |file|
    ensures r == ScanRest(c, file[HEADER_SIZE..], start)
    ensures cursor == HEADER_SIZE + ReadByScan(c, file[HEADER_SIZE..], start)
  {
    hide ReadFrame, ScanRest, ReadByScan, ReadForBad;
    var scan := start;
    var at: nat := HEADER_SIZE;
    while at < |file|
      invariant at <= |file|
      invariant ScanRest(c, file[at..], scan) == ScanRest(c, file[HEADER_SIZE..], start)
      invariant at + ReadByScan(c, file[at..], scan) == HEADER_SIZE + ReadByScan(c, file[HEADER_SIZE..], start)
    {
      var f := ReadRecord(c, file, at);
      ScanStep(c, file, at, scan);
      StopStep(c, file, at, scan);
      if f.Torn? {
        scan := scan.(tail := true);
        return Ok(scan), |file|;
      }
      if f.Bad? { return Err(f.error), at + ReadForBad(file[at..]); }
      match f.record {
        case Change(e) =>
          if e.sequence != (scan.last + 1) % UINT64 { return Err(Corrupt), at + f.size; }
          scan := scan.(entries := scan.entries + [e], last := e.sequence);
        case Commit(sequence) =>
          if sequence < scan.committed || sequence > scan.last { return Err(Corrupt), at + f.size; }
          scan := scan.(committed := sequence);
      }
      scan := scan.(valid := scan.valid + f.size);
      at := at + f.size;
    }
    ScanEnd(c, file, at, scan);
    return Ok(scan), |file|;
  }

  lemma ScanEnd(c: Codec, file: seq<Byte>, at: nat, scan: Scan)
    requires at == |file|
    ensures ScanRest(c, file[at..], scan) == Ok(scan) && ReadByScan(c, file[at..], scan) == 0
  {
  }

  function TotalLength(values: seq<Str>): nat {
    if values == [] then 0 else |values[0]| + TotalLength(values[1..])
  }

  /** Subtracts each length from what remains and stops at the first that does not fit. */
  method FitsInRecord(values: seq<Str>) returns (ok: bool)
    ensures ok <==> TotalLength(values) <= MAX_RECORD - 32
  {
    var remaining := MAX_RECORD - 32;
    for i := 0 to |values|
      invariant remaining >= 0 && TotalLength(values) == (MAX_RECORD - 32 - remaining) + TotalLength(values[i..])
    {
      assert values[i..][1..] == values[i + 1..];
      if |values[i]| > remaining { return false; }
      remaining := remaining - |values[i]|;
    }
    return true;
  }

  lemma TotalOfThree(a: Str, b: Str, c: Str)
    ensures TotalLength([a, b, c]) == |a| + |b| + |c|
  {
    assert [a, b, c][1..] == [b, c] && [b, c][1..] == [c] && [c][1..] == [];
    assert TotalLength([c]) == |c| && TotalLength([b, c]) == |b| + |c|;
  }

  method EntriesAbove(entries: seq<Entry>, sequence: nat) returns (remaining: seq<Entry>)
    ensures remaining == Above(entries, sequence)
  {
    remaining := [];
    for i := 0 to |entries|
      invariant remaining == Above(entries[..i], sequence)
    {
      assert entries[..i + 1][..i] == entries[..i];
      if entries[i].sequence > sequence { remaining := remaining + [entries[i]]; }
    }
    assert entries[..|entries|] == entries;
  }

  lemma NoRecords(c: Codec)
    ensures RecordsBytes(c, []) == []
  {
  }

  /** Encodes the mutations again; fails at one the encoder refuses. */
  method EncodeChanges(c: Codec, entries: seq<Entry>) returns (ok: bool, body: seq<Byte>)
    ensures ok <==> forall e :: e in entries ==> c.trim(e.mutation.document.id) != [] && Fits(e.mutation)
    ensures ok ==> body == RecordsBytes(c, Changes(entries))
  {
    hide RecordBytes, RecordsBytes, Fits;
    body := [];
    assert Changes(entries[..0]) == [] && RecordsBytes(c, []) == [] by { NoRecords(c); }
    for i := 0 to |entries|
      invariant body == RecordsBytes(c, Changes(entries[..i]))
      invariant forall e :: e in entries[..i] ==> c.trim(e.mutation.document.id) != [] && Fits(e.mutation)
    {
      var e := entries[i];
      assert e in entries;
      if c.trim(e.mutation.document.id) == [] || !Fits(e.mutation) { return false, body; }
      assert entries[..i + 1] == entries[..i] + [e];
      assert Changes(entries[..i + 1]) == Changes(entries[..i]) + [Change(e)];
      RecordsSnoc(c, Changes(entries[..i]), Change(e));
      body := body + RecordBytes(c, Change(e));
    }
    assert entries[..|entries|] == entries;
    return true, body;
  }

  class Log {
    const codec: Codec
    var file: seq<Byte>
    var cursor: nat
    ghost var synced: nat
    var baseSequence: nat
    var lastSequence: nat
    var committedSequence: nat

    ghost function State(): LogState
      reads this
    {
      LogState(file, cursor, synced, baseSequence, lastSequence, committedSequence)
    }

    /** Opens a file that scans; `Opened` says when it does. */
    constructor (codec: Codec, stored: seq<Byte>, ghost synced: nat)
      requires Opened(codec, stored, synced).Ok?
      ensures this.codec == codec && State() == Opened(codec, stored, synced).value
    {
      hide ScanLog, CursorAfterScan;
      var present := if stored == [] then Header(0) else stored;
      var scanned, _ := ScanFile(codec, present);
      var scan := scanned.value;
      var kept := if scan.tail && scan.valid <= |present| then present[..scan.valid] else present;
      this.codec, file, cursor := codec, kept, |kept|;
      this.synced := if stored == [] || scan.tail then |kept| else synced;
      baseSequence, lastSequence, committedSequence := scan.base, scan.last, scan.committed;
    }

    method WriteRecord(r: Record)
      requires cursor <= |file|
      modifies this
      ensures State() == WithRecord(codec, old(State()), r)
    {
      var bytes := RecordBytes(codec, r);
      file := file[..cursor] + bytes + (if cursor + |bytes| < |file| then file[cursor + |bytes|..] else []);
      cursor := cursor + |bytes|;
    }

    /** Records a mutation and returns its sequence, or zero when it is refused. */
    method Append(m: Mutation) returns (sequence: nat)
      requires cursor <= |file|
      modifies this
      ensures State() == AfterAppend(codec, old(State()), m)
      ensures sequence == if CanAppend(codec, old(State()), m) then old(lastSequence) + 1 else 0
    {
      hide RecordBytes, WithRecord;
      TotalOfThree(codec.trim(m.document.id), m.document.title, m.document.body);
      var id := codec.trim(m.document.id);
      if id == [] { return 0; }
      if lastSequence == UINT64 - 1 { return 0; }
      var fits := FitsInRecord([id, m.document.title, m.document.body]);
      if !fits { return 0; }
      sequence := lastSequence + 1;
      var kept := if m.deleted then Mutation(Document(id, [], []), true) else Mutation(m.document.(id := id), false);
      WriteRecord(Change(Entry(sequence, kept)));
      lastSequence := sequence;
    }

    /** Makes every mutation through `sequence` durable. */
    method CommitThrough(sequence: nat) returns (ok: bool)
      requires cursor <= |file|
      modifies this
      ensures State() == AfterCommit(codec, old(State()), sequence)
      ensures ok == CanCommit(old(State()), sequence)
    {
      hide RecordBytes;
      if sequence < committedSequence || sequence > lastSequence { return false; }
      if sequence == committedSequence {
        synced := |file|;
        return true;
      }
      WriteRecord(Commit(sequence));
      synced := |file|;
      committedSequence := sequence;
      return true;
    }

    /** Returns the committed mutations in order; reading leaves the cursor where it stopped. */
    method ReplayCommitted() returns (r: Result<seq<Entry>>)
      modifies this`cursor
      ensures r == ReplayOf(codec, file) && cursor == CursorAfterScan(codec, file)
    {
      hide ScanLog, CursorAfterScan;
      var scanned, stopped := ScanFile(codec, file);
      cursor := stopped;
      if scanned.Err? { return Err(scanned.error); }
      var scan := scanned.value;
      var entries: seq<Entry> := [];
      for i := 0 to |scan.entries|
        invariant entries == UpTo(scan.entries[..i], scan.committed)
      {
        assert scan.entries[..i + 1][..i] == scan.entries[..i];
        if scan.entries[i].sequence <= scan.committed { entries := entries + [scan.entries[i]]; }
      }
      assert scan.entries[..|scan.entries|] == scan.entries;
      return Ok(entries);
    }

    /** Discards mutations through a checkpoint by writing the remaining records to a new file. */
    method TruncateThrough(sequence: nat) returns (ok: bool)
      modifies this
      ensures ok == CanTruncate(codec, old(State()), sequence)
      ensures State() == AfterTruncate(codec, old(State()), sequence)
    {
      if sequence < baseSequence || sequence > committedSequence { return false; }
      hide ScanLog, CursorAfterScan, RecordBytes, Above, Fits, RecordsBytes;
      var scanned, stopped := ScanFile(codec, file);
      cursor := stopped;
      if scanned.Err? { return false; }
      var scan := scanned.value;
      var remaining := EntriesAbove(scan.entries, sequence);
      var encoded, body := EncodeChanges(codec, remaining);
      if !encoded { return false; }
      if scan.committed > sequence {
        RecordsSnoc(codec, Changes(remaining), Commit(scan.committed));
        body := body + RecordBytes(codec, Commit(scan.committed));
      } else {
        assert Changes(remaining) + [] == Changes(remaining);
      }
      file := Header(sequence) + body;
      cursor, synced := |file|, |file|;
      baseSequence, lastSequence, committedSequence := sequence, scan.last, scan.committed;
      return true;
    }
  }
}
