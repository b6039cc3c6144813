/** A replay that its context cancels, and what the next append or commit then does to the file. */
module WalReplay {

  import opened Bytes
  import opened Encoding
  import opened Documents
  import opened WalCodec
  import opened Wal

  /** Replay that its context cancels after `k` records: the cursor stays behind them. */
  function AfterCancelledReplay(c: Codec, w: World, k: nat): LogState
    requires k <= |w.records|
  {
    w.log.(cursor := |LogBytes(c, w.log.base, w.records[..k])|)
  }

  /** What is left of the old records behind one written at the cursor. */
  function OverwrittenRest(c: Codec, l: LogState, r: Record): seq<Byte> {
    if l.cursor + |RecordBytes(c, r)| < |l.file| then l.file[l.cursor + |RecordBytes(c, r)|..] else []
  }

  lemma WriteAtSplit(file: seq<Byte>, cursor: nat, data: seq<Byte>)
    requires cursor <= |file|
    ensures WriteAt(file, cursor, data) ==
      file[..cursor] + (data + (if cursor + |data| < |file| then file[cursor + |data|..] else []))
  {
  }

  /** The next record lands on top of the records that were not read. */
  lemma OverwrittenFile(c: Codec, w: World, r: Record, k: nat)
    requires Intact(c, w) && k <= |w.records|
    ensures var l := AfterCancelledReplay(c, w, k);
      WithRecord(c, l, r).file ==
        Header(w.log.base) + (RecordsBytes(c, w.records[..k]) + (RecordBytes(c, r) + OverwrittenRest(c, l, r)))
  {
    hide RecordBytes, RecordsBytes, Intact, Header, WithRecord, OverwrittenRest;
    var l := AfterCancelledReplay(c, w, k);
    IntactMeans(c, w);
    LogPrefix(c, w.log.base, w.records, k);
    WrittenAtCursor(c, l, r);
    Regroup(Header(w.log.base), RecordsBytes(c, w.records[..k]), RecordBytes(c, r) + OverwrittenRest(c, l, r));
  }

  lemma WrittenAtCursor(c: Codec, l: LogState, r: Record)
    requires l.cursor <= |l.file|
    ensures WithRecord(c, l, r).file == l.file[..l.cursor] + (RecordBytes(c, r) + OverwrittenRest(c, l, r))
  {
    hide RecordBytes, WriteAt;
    WriteAtSplit(l.file, l.cursor, RecordBytes(c, r));
  }

  lemma Regroup(a: seq<Byte>, b: seq<Byte>, c: seq<Byte>)
    ensures a + b + c == a + (b + c)
  {
  }

  /** How far the records that were read go. */
  lemma ReadSoFar(c: Codec, w: World, k: nat)
    requires Intact(c, w) && k <= |w.records|
    ensures Playable(c, StartScan(w.log.base), w.records[..k])
    ensures Play(c, StartScan(w.log.base), w.records[..k]).last <= w.log.last
    ensures Play(c, StartScan(w.log.base), w.records[..k]).committed <= w.log.committed
    ensures k == 0 ==> Play(c, StartScan(w.log.base), w.records[..k]) == StartScan(w.log.base)
  {
    hide Play, Playable, Intact, ValidRecord;
    IntactMeans(c, w);
    PlayedInMemory(c, w);
    PlayPrefix(c, w.log.base, w.records, k);
    PlayCoherent(c, w.log.base, w.records[..k]);
    PlayCoherent(c, w.log.base, w.records);
    PlayMeasures(c, StartScan(w.log.base), w.records[..k]);
    PlayMeasures(c, StartScan(w.log.base), w.records);
    StartCoherent(c, w.log.base);
    assert k == 0 ==> w.records[..k] == [];
  }

  /** After a cancelled replay and one more record, what a scan finds: corruption if the record does not follow on what
      was read, and otherwise what was read, the new record, and whatever the bytes behind it happen to say. */
  lemma RecordAfterCancelledReplay(c: Codec, w: World, r: Record, k: nat)
    requires ValidCodec(c) && Intact(c, w) && ValidRecord(c, r) && k <= |w.records|
    ensures var l := AfterCancelledReplay(c, w, k);
      var read := Play(c, StartScan(w.log.base), w.records[..k]);
      ScanLog(c, WithRecord(c, l, r).file) ==
        if Follows(read, r) then ScanRest(c, OverwrittenRest(c, l, r), Take(read, r, |RecordBytes(c, r)|))
        else Err(Corrupt)
  {
    hide RecordBytes, RecordsBytes, ScanRest, ValidRecord, Header, Play, Playable, Intact, WithRecord, Take, Follows,
      OverwrittenRest, GetBE;
    var l := AfterCancelledReplay(c, w, k);
    var data := RecordBytes(c, r) + OverwrittenRest(c, l, r);
    IntactMeans(c, w);
    OverwrittenFile(c, w, r, k);
    ReadSoFar(c, w, k);
    HeaderFields(w.log.base, RecordsBytes(c, w.records[..k]) + data);
    ScanPlaysRecords(c, w.records[..k], data, StartScan(w.log.base));
    ScanTakesRecord(c, r, OverwrittenRest(c, l, r), Play(c, StartScan(w.log.base), w.records[..k]));
  }

  /** An append is then found corrupt exactly if a mutation was left unread, whatever follows in the file. */
  lemma AppendAfterCancelledReplay(c: Codec, w: World, m: Mutation, k: nat)
    requires ValidCodec(c) && Intact(c, w) && CanAppend(c, w.log, m) && k <= |w.records|
    ensures var l, r := AfterCancelledReplay(c, w, k), AppendRecord(c, w.log, m);
      var read := Play(c, StartScan(w.log.base), w.records[..k]);
      ScanLog(c, AfterAppend(c, l, m).file) ==
        if read.last < w.log.last then Err(Corrupt)
        else ScanRest(c, OverwrittenRest(c, l, r), Take(read, r, |RecordBytes(c, r)|))
  {
    hide RecordBytes, ScanLog, ScanRest, ValidRecord, Play, Playable, Intact, WithRecord, Take, OverwrittenRest,
      AfterAppend, Follows, CanAppend;
    var r := AppendRecord(c, w.log, m);
    ReadSoFar(c, w, k);
    AppendIsValid(c, w, m);
    AppendShape(c, w, m, k, Play(c, StartScan(w.log.base), w.records[..k]));
    RecordAfterCancelledReplay(c, w, r, k);
  }

  lemma AppendShape(c: Codec, w: World, m: Mutation, k: nat, read: Scan)
    requires Intact(c, w) && CanAppend(c, w.log, m) && k <= |w.records| && read.last <= w.log.last
    ensures var l, r := AfterCancelledReplay(c, w, k), AppendRecord(c, w.log, m);
      AfterAppend(c, l, m).file == WithRecord(c, l, r).file && (Follows(read, r) <==> read.last == w.log.last)
  {
    hide WithRecord, Kept, Represents, Durable, Fits;
  }

  /** A commit that advances is found corrupt exactly if a mutation it covers was left unread, so always when nothing
      was read; otherwise it takes the place of what was not read. */
  lemma CommitAfterCancelledReplay(c: Codec, w: World, sequence: nat, k: nat)
    requires ValidCodec(c) && Intact(c, w) && w.log.committed < sequence <= w.log.last && k <= |w.records|
    ensures var l, r := AfterCancelledReplay(c, w, k), Commit(sequence);
      var read := Play(c, StartScan(w.log.base), w.records[..k]);
      var scan := ScanLog(c, AfterCommit(c, l, sequence).file);
      && scan == (if read.last < sequence then Err(Corrupt)
                  else ScanRest(c, OverwrittenRest(c, l, r), Take(read, r, |RecordBytes(c, r)|)))
      && (k == 0 ==> scan == Err(Corrupt))
  {
    hide RecordBytes, ScanLog, ScanRest, Play, Playable, Represents, Durable, WithRecord, Take, OverwrittenRest;
    ReadSoFar(c, w, k);
    RecordAfterCancelledReplay(c, w, Commit(sequence), k);
  }

  /** When the context had ended before the first record, the file still scans exactly if the log held no records. */
  lemma AppendAfterReplayCancelledAtOnce(c: Codec, w: World, m: Mutation)
    requires ValidCodec(c) && Intact(c, w) && CanAppend(c, w.log, m)
    ensures ScanLog(c, AfterAppend(c, AfterCancelledReplay(c, w, 0), m).file).Ok? <==> w.log.file == Header(w.log.base)
  {
    hide RecordBytes, ScanRest, ScanLog, Header, Play, Represents, Durable, AfterAppend, Take, Kept, CanAppend;
    var l, r := AfterCancelledReplay(c, w, 0), AppendRecord(c, w.log, m);
    ReadSoFar(c, w, 0);
    AppendAfterCancelledReplay(c, w, m, 0);
    if w.records == [] {
      EmptyLog(c, w, r);
      ScanNothing(c, Take(StartScan(w.log.base), r, |RecordBytes(c, r)|));
    } else {
      FirstChange(c, w);
    }
  }

  lemma EmptyLog(c: Codec, w: World, r: Record)
    requires Intact(c, w) && w.records == []
    ensures w.log.file == Header(w.log.base) && w.log.last == w.log.base
    ensures OverwrittenRest(c, AfterCancelledReplay(c, w, 0), r) == []
  {
    assert Header(w.log.base) + [] == Header(w.log.base);
    assert w.records[..0] == [];
  }

  lemma FirstChange(c: Codec, w: World)
    requires Intact(c, w) && w.records != []
    ensures w.log.last > w.log.base && w.log.file != Header(w.log.base)
  {
    PlayPrefix(c, w.log.base, w.records, 1);
    PlayCoherent(c, w.log.base, w.records);
    assert w.records[..1] == [w.records[0]];
    var s := StartScan(w.log.base);
    assert Play(c, s, [w.records[0]]) == Play(c, Take(s, w.records[0], |RecordBytes(c, w.records[0])|), []);
    assert |RecordsBytes(c, w.records)| > 0;
  }

  lemma CommitLength(c: Codec, sequence: nat)
    ensures |RecordBytes(c, Commit(sequence))| == FRAME_SIZE + 9
  {
  }

  lemma ChangeLength(c: Codec, e: Entry)
    ensures |RecordBytes(c, Change(e))| >= FRAME_SIZE + 9
  {
  }

  /** Only the last record, a commit, was left unread: the new record covers all of it. The file scans, with the commit
      before it, so the mutations that only the last commit covered are no longer committed. */
  lemma CancelledReplayLosesCommit(c: Codec, w: World, m: Mutation)
    requires ValidCodec(c) && Intact(c, w) && CanAppend(c, w.log, m)
    requires w.records != [] && w.records[|w.records| - 1].Commit?
    ensures var k := |w.records| - 1;
      var read := Play(c, StartScan(w.log.base), w.records[..k]);
      var scan := ScanLog(c, AfterAppend(c, AfterCancelledReplay(c, w, k), m).file);
      && scan.Ok? && scan.value.last == w.log.last + 1 && scan.value.committed == read.committed
      && w.log.committed == w.records[k].sequence
  {
    var k := |w.records| - 1;
    var l, r := AfterCancelledReplay(c, w, k), AppendRecord(c, w.log, m);
    var read := Play(c, StartScan(w.log.base), w.records[..k]);
    LastIsCommit(c, w);
    AppendAfterCancelledReplay(c, w, m, k);
    CommitLength(c, w.records[k].sequence);
    ChangeLength(c, r.entry);
    CoveredWhole(c, w, r);
    ScanNothing(c, Take(read, r, |RecordBytes(c, r)|));
    hide Play, RecordBytes, ScanLog, Intact, AfterAppend, CanAppend, OverwrittenRest;
  }

  lemma PlaysHistory(c: Codec, w: World)
    requires Intact(c, w)
    ensures w.log.base <= w.log.last <= |w.history| && Playable(c, StartScan(w.log.base), w.records)
    ensures Play(c, StartScan(w.log.base), w.records) ==
      Scan(w.log.base, w.log.last, w.log.committed, |w.log.file|, false, EntriesOf(w.history, w.log.base, w.log.last))
  {
    hide Play, Playable, EntriesOf, Durable, LogBytes;
  }

  lemma LastIsCommit(c: Codec, w: World)
    requires Intact(c, w) && w.records != [] && w.records[|w.records| - 1].Commit?
    ensures w.log.base <= w.log.last <= |w.history|
    ensures var read := Play(c, StartScan(w.log.base), w.records[..|w.records| - 1]);
      && read.last == w.log.last && w.log.committed == w.records[|w.records| - 1].sequence
      && read.entries == EntriesOf(w.history, w.log.base, w.log.last)
  {
    hide Play, Playable, EntriesOf, Intact, RecordBytes, ValidRecord, Follows;
    PlaysHistory(c, w);
    var init, last := w.records[..|w.records| - 1], w.records[|w.records| - 1];
    assert w.records == init + [last];
    PlaySnoc(c, StartScan(w.log.base), init, last);
  }

  lemma CoveredWhole(c: Codec, w: World, r: Record)
    requires Intact(c, w) && w.records != []
    requires |RecordBytes(c, r)| >= |RecordBytes(c, w.records[|w.records| - 1])|
    ensures OverwrittenRest(c, AfterCancelledReplay(c, w, |w.records| - 1), r) == []
  {
    hide RecordBytes, RecordsBytes, Intact, Play, Playable;
    IntactMeans(c, w);
    var init, last := w.records[..|w.records| - 1], w.records[|w.records| - 1];
    assert w.records == init + [last];
    RecordsSnoc(c, init, last);
  }

  /** A commit that takes the place of a last, unread commit record loses nothing. */
  lemma CommitReplacesCommit(c: Codec, w: World, sequence: nat)
    requires ValidCodec(c) && Intact(c, w) && w.log.committed < sequence <= w.log.last
    requires w.records != [] && w.records[|w.records| - 1].Commit?
    ensures var scan := ScanLog(c, AfterCommit(c, AfterCancelledReplay(c, w, |w.records| - 1), sequence).file);
      && scan.Ok? && scan.value.last == w.log.last && scan.value.committed == sequence
      && scan.value.entries == EntriesOf(w.history, w.log.base, w.log.last)
  {
    hide RecordBytes, ScanLog, ScanRest, Play, Playable, Durable, AfterCommit, OverwrittenRest, LogBytes;
    var k, r := |w.records| - 1, Commit(sequence);
    var read := Play(c, StartScan(w.log.base), w.records[..k]);
    LastIsCommit(c, w);
    CommitAfterCancelledReplay(c, w, sequence, k);
    CommitLength(c, w.records[k].sequence);
    CommitLength(c, sequence);
    CoveredWhole(c, w, r);
    ScanNothing(c, Take(read, r, |RecordBytes(c, r)|));
  }
}
