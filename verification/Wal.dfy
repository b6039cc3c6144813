/** The write-ahead log through appends, commits, checkpoint truncation and crashes.

    A crash keeps every byte up to the last sync and any number of the bytes after it, and can fall between the write
    of a commit record and its sync. A rewrite replaces the file atomically. Writes and syncs that fail without a crash
    are not part of this model. */
module Wal {

  import opened Bytes
  import opened Encoding
  import opened Documents
  import opened WalCodec

  datatype LogState = LogState(file: seq<Byte>, cursor: nat, synced: nat, base: nat, last: nat, committed: nat)

  // ---------------------------------------------------------------------------
  // Operations

  /** Overwrites at the cursor and extends the file when the data reach past its end. */
  function WriteAt(file: seq<Byte>, cursor: nat, data: seq<Byte>): seq<Byte> {
    if cursor > |file| then file + data
    else file[..cursor] + data + (if cursor + |data| < |file| then file[cursor + |data|..] else [])
  }

  function WithRecord(c: Codec, l: LogState, r: Record): LogState {
    l.(file := WriteAt(l.file, l.cursor, RecordBytes(c, r)), cursor := l.cursor + |RecordBytes(c, r)|)
  }

  /** What the log keeps of a mutation: a trimmed ID, and nothing but the ID for a deletion. */
  function Kept(c: Codec, m: Mutation): Mutation {
    var id := c.trim(m.document.id);
    if m.deleted then Mutation(Document(id, [], []), true) else Mutation(m.document.(id := id), false)
  }

  predicate CanAppend(c: Codec, l: LogState, m: Mutation) {
    && c.trim(m.document.id) != []
    && l.last != UINT64 - 1
    && Fits(m.(document := m.document.(id := c.trim(m.document.id))))
  }

  function AppendRecord(c: Codec, l: LogState, m: Mutation): Record {
    Change(Entry(l.last + 1, Kept(c, m)))
  }

  function AfterAppend(c: Codec, l: LogState, m: Mutation): LogState {
    if CanAppend(c, l, m) then WithRecord(c, l, AppendRecord(c, l, m)).(last := l.last + 1) else l
  }

  predicate CanCommit(l: LogState, sequence: nat) {
    l.committed <= sequence <= l.last
  }

  function AfterCommit(c: Codec, l: LogState, sequence: nat): LogState {
    if !CanCommit(l, sequence) then l
    else if sequence == l.committed then l.(synced := |l.file|)
    else
      var w := WithRecord(c, l, Commit(sequence));
      w.(synced := |w.file|, committed := sequence)
  }

  function UpTo(entries: seq<Entry>, sequence: nat): seq<Entry> {
    if entries == [] then []
    else
      var rest := UpTo(entries[..|entries| - 1], sequence);
      var e := entries[|entries| - 1];
      if e.sequence <= sequence then rest + [e] else rest
  }

  function Above(entries: seq<Entry>, sequence: nat): seq<Entry> {
    if entries == [] then []
    else
      var rest := Above(entries[..|entries| - 1], sequence);
      var e := entries[|entries| - 1];
      if e.sequence > sequence then rest + [e] else rest
  }

  /** The committed mutations of a file, in order. */
  function ReplayOf(c: Codec, file: seq<Byte>): Result<seq<Entry>> {
    match ScanLog(c, file)
    case Err(e) => Err(e)
    case Ok(scan) => Ok(UpTo(scan.entries, scan.committed))
  }

  function Changes(entries: seq<Entry>): (r: seq<Record>)
    ensures |r| == |entries| && forall i :: 0 <= i < |r| ==> r[i] == Change(entries[i])
  {
    seq(|entries|, i requires 0 <= i < |entries| => Change(entries[i]))
  }

  /** The records a checkpoint leaves: the mutations above it and the commit, if any is left to state. */
  function Rewritten(sequence: nat, scan: Scan): seq<Record> {
    Changes(Above(scan.entries, sequence)) + (if scan.committed > sequence then [Commit(scan.committed)] else [])
  }

  predicate CanTruncate(c: Codec, l: LogState, sequence: nat) {
    && l.base <= sequence <= l.committed
    && var scan := ScanLog(c, l.file);
       scan.Ok? && forall e :: e in Above(scan.value.entries, sequence) ==>
         c.trim(e.mutation.document.id) != [] && Fits(e.mutation)
  }

  /** An attempt outside the committed range does nothing; one that fails later has read the file. */
  function AfterTruncate(c: Codec, l: LogState, sequence: nat): LogState {
    if !(l.base <= sequence <= l.committed) then l
    else if !CanTruncate(c, l, sequence) then l.(cursor := CursorAfterScan(c, l.file))
    else
      var scan := ScanLog(c, l.file).value;
      var file := LogBytes(c, sequence, Rewritten(sequence, scan));
      LogState(file, |file|, |file|, sequence, scan.last, scan.committed)
  }

  /** Opening a file of which `synced` bytes are synced: it starts an empty one, drops an incomplete tail, and refuses a
      corrupt one. Only the first two sync the file. */
  function Opened(c: Codec, file: seq<Byte>, synced: nat): Result<LogState> {
    var present := if file == [] then Header(0) else file;
    match ScanLog(c, present)
    case Err(e) => Err(e)
    case Ok(scan) =>
      var kept := if scan.tail && scan.valid <= |present| then present[..scan.valid] else present;
      Ok(LogState(kept, |kept|, if file == [] ||
        scan.tail then |kept| else synced, scan.base, scan.last, scan.committed))
  }

  // ---------------------------------------------------------------------------
  // Playing records

  lemma {:induction false} PlaySnoc(c: Codec, s: Scan, rs: seq<Record>, r: Record)
    ensures Play(c, s, rs + [r]) == Take(Play(c, s, rs), r, |RecordBytes(c, r)|)
    ensures Playable(c, s, rs + [r]) <==> Playable(c, s, rs) && ValidRecord(c, r) && Follows(Play(c, s, rs), r)
    ensures RecordsBytes(c, rs + [r]) == RecordsBytes(c, rs) + RecordBytes(c, r)
    decreases |rs|
  {
    hide RecordBytes, ValidRecord, Follows, Take;
    if rs == [] {
      assert [r][1..] == [] && [] + [r] == [r];
      assert Playable(c, s, [r]) <==>
        ValidRecord(c, r) && Follows(s, r) && Playable(c, Take(s, r, |RecordBytes(c, r)|), []);
      assert RecordsBytes(c, [r]) == RecordBytes(c, r) + RecordsBytes(c, []);
    } else {
      assert (rs + [r])[1..] == rs[1..] + [r];
      PlaySnoc(c, Take(s, rs[0], |RecordBytes(c, rs[0])|), rs[1..], r);
    }
  }

  lemma RecordsSnoc(c: Codec, rs: seq<Record>, r: Record)
    ensures RecordsBytes(c, rs + [r]) == RecordsBytes(c, rs) + RecordBytes(c, r)
  {
    PlaySnoc(c, StartScan(0), rs, r);
  }

  /** What playing from the start of a log always yields: contiguous sequences above the base, each a valid record,
      and a commit among them. */
  ghost predicate Coherent(c: Codec, s: Scan) {
    && s.base <= s.committed <= s.last < UINT64 && s.last == s.base + |s.entries| && !s.tail
    && forall i :: 0 <= i < |s.entries| ==>
         s.entries[i].sequence == s.base + i + 1 && ValidRecord(c, Change(s.entries[i]))
  }

  lemma NextSequence(last: nat, sequence: nat)
    requires last < UINT64 && 0 < sequence && sequence == (last + 1) % UINT64
    ensures sequence == last + 1 < UINT64
  {
  }

  lemma TakeCoherent(c: Codec, s: Scan, r: Record, size: nat)
    requires Coherent(c, s) && ValidRecord(c, r) && Follows(s, r)
    ensures Coherent(c, Take(s, r, size))
  {
    if r.Change? {
      NextSequence(s.last, r.entry.sequence);
    }
  }

  lemma StartCoherent(c: Codec, base: nat)
    requires base < UINT64
    ensures Play(c, StartScan(base), []) == StartScan(base) && Coherent(c, StartScan(base))
  {
  }

  lemma {:induction false} PlayCoherent(c: Codec, base: nat, rs: seq<Record>)
    requires base < UINT64 && Playable(c, StartScan(base), rs)
    ensures Coherent(c, Play(c, StartScan(base), rs))
    decreases |rs|
  {
    hide Play, Playable, Coherent, Take, ValidRecord, Follows, StartScan;
    if rs == [] {
      StartCoherent(c, base);
    } else {
      var init, r := rs[..|rs| - 1], rs[|rs| - 1];
      assert rs == init + [r];
      PlaySnoc(c, StartScan(base), init, r);
      PlayCoherent(c, base, init);
      TakeCoherent(c, Play(c, StartScan(base), init), r, |RecordBytes(c, r)|);
    }
  }

  /** A prefix of the records is playable, and later records only add entries and raise the commit. */
  lemma {:induction false} PlayPrefix(c: Codec, base: nat, rs: seq<Record>, k: nat)
    requires base < UINT64 && Playable(c, StartScan(base), rs) && k <= |rs|
    ensures Playable(c, StartScan(base), rs[..k])
    ensures var s, t := Play(c, StartScan(base), rs[..k]), Play(c, StartScan(base), rs);
      s.committed <= t.committed && s.entries <= t.entries
    decreases |rs|
  {
    if k == |rs| {
      assert rs[..k] == rs;
    } else {
      var init, r := rs[..|rs| - 1], rs[|rs| - 1];
      assert rs == init + [r];
      assert init[..k] == rs[..k];
      PlaySnoc(c, StartScan(base), init, r);
      hide Play, Playable;
      PlayPrefix(c, base, init, k);
    }
  }

  lemma {:induction false} WholeReaches(c: Codec, rs: seq<Record>, k: nat, n: nat)
    requires k <= |rs| && n >= |RecordsBytes(c, rs[..k])|
    ensures WholeCount(c, rs, n) >= k
    decreases |rs|
  {
    if k > 0 {
      assert rs[..k][1..] == rs[1..][..k - 1];
      WholeReaches(c, rs[1..], k - 1, n - |RecordBytes(c, rs[0])|);
    }
  }

  // ---------------------------------------------------------------------------
  // Runs

  datatype Step =
    | Append(mutation: Mutation)
    | CommitTo(sequence: nat)
    | Replay
    | Truncate(sequence: nat)
    | Crash(cut: nat)
    | CrashInCommit(sequence: nat, cut: nat)

  /** A log together with what its bytes stand for: the records in the file, how many of them were synced, and every
      mutation appended so far and not lost, the i-th with sequence i+1. */
  datatype World = World(log: LogState, records: seq<Record>, durable: nat, history: seq<Mutation>)

  const FRESH := World(LogState(Header(0), HEADER_SIZE, HEADER_SIZE, 0, 0, 0), [], 0, [])

  function EntriesOf(history: seq<Mutation>, from: nat, end: nat): (r: seq<Entry>)
    requires from <= end <= |history|
    ensures |r| == end - from
    ensures forall i :: 0 <= i < |r| ==> r[i] == Entry(from + i + 1, history[from + i])
  {
    seq(end - from, i requires 0 <= i < end - from => Entry(from + i + 1, history[from + i]))
  }

  /** A commit record written and not synced. */
  function CommitWritten(c: Codec, w: World, sequence: nat): World {
    w.(log := WithRecord(c, w.log, Commit(sequence)).(committed := sequence), records := w.records + [Commit(sequence)])
  }

  function Synced(w: World): World {
    w.(log := w.log.(synced := |w.log.file|), durable := |w.records|)
  }

  /** A commit up to its sync. */
  function Committing(c: Codec, w: World, sequence: nat): World {
    if sequence == w.log.committed then w else CommitWritten(c, w, sequence)
  }

  /** A crash that leaves `cut` bytes of the file, and the log opened again. */
  function Crashed(c: Codec, w: World, cut: nat): World {
    if !(w.log.synced <= cut <= |w.log.file| && HEADER_SIZE <= cut) then w
    else
      match Opened(c, w.log.file[..cut], w.log.synced)
      case Err(_) => w
      case Ok(l) =>
        var k := WholeCount(c, w.records, cut - HEADER_SIZE);
        World(l, w.records[..k], if l.synced == w.log.synced then w.durable else k,
              if l.last <= |w.history| then w.history[..l.last] else w.history)
  }

  function Next(c: Codec, w: World, step: Step): World {
    match step
    case Append(m) =>
      if CanAppend(c, w.log, m)
      then World(AfterAppend(c, w.log, m), w.records + [AppendRecord(c, w.log, m)], w.durable, w.history + [Kept(c, m)])
      else w
    case CommitTo(sequence) => if CanCommit(w.log, sequence) then Synced(Committing(c, w, sequence)) else w
    case Replay => w.(log := w.log.(cursor := CursorAfterScan(c, w.log.file)))
    case Truncate(sequence) =>
      if !CanTruncate(c, w.log, sequence) then w.(log := AfterTruncate(c, w.log, sequence))
      else
        var records := Rewritten(sequence, ScanLog(c, w.log.file).value);
        w.(log := AfterTruncate(c, w.log, sequence), records := records, durable := |records|)
    case Crash(cut) => Crashed(c, w, cut)
    case CrashInCommit(sequence, cut) =>
      if CanCommit(w.log, sequence) then Crashed(c, Committing(c, w, sequence), cut) else w
  }

  ghost predicate Ordered(w: World) {
    w.log.base <= w.log.committed <= w.log.last == |w.history| < UINT64
  }

  /** The file is exactly the bytes of the records, the cursor is at its end, and the records play to the in-memory
      sequences and the history above the base. */
  ghost predicate Represents(c: Codec, w: World)
    requires Ordered(w)
  {
    var l := w.log;
    && Playable(c, StartScan(l.base), w.records)
    && l.file == LogBytes(c, l.base, w.records) && l.cursor == |l.file|
    && Play(c, StartScan(l.base), w.records) ==
         Scan(l.base, l.last, l.committed, |l.file|, false, EntriesOf(w.history, l.base, l.last))
    && (w.records != [] ==> w.records[0].Change?)
  }

  ghost predicate Intact(c: Codec, w: World) {
    Ordered(w) && Represents(c, w) && Durable(c, w)
  }

  /** The synced part ends at a record boundary. */
  ghost predicate Durable(c: Codec, w: World) {
    w.durable <= |w.records| && w.log.synced == |LogBytes(c, w.log.base, w.records[..w.durable])|
  }

  /** The commit that the synced part of the file holds. A crash cannot take it back. */
  ghost function Secured(c: Codec, w: World): nat
    requires w.durable <= |w.records|
  {
    Play(c, StartScan(w.log.base), w.records[..w.durable]).committed
  }

  lemma SecuredWithin(c: Codec, w: World)
    requires Intact(c, w)
    ensures w.log.base <= Secured(c, w) <= w.log.committed
  {
    hide ValidRecord, Playable, EntriesOf;
    PlayPrefix(c, w.log.base, w.records, w.durable);
    PlayCoherent(c, w.log.base, w.records[..w.durable]);
    PlayMeasures(c, StartScan(w.log.base), w.records[..w.durable]);
  }

  /** The in-memory sequences are what a fresh scan of the file computes. */
  lemma IntactScans(c: Codec, w: World)
    requires ValidCodec(c) && Intact(c, w)
    ensures ScanLog(c, w.log.file) ==
      Ok(Scan(w.log.base, w.log.last, w.log.committed, |w.log.file|, false,
        EntriesOf(w.history, w.log.base, w.log.last)))
  {
    ScanWholeLog(c, w.log.base, w.records);
  }

  lemma {:induction false} UpToPrefix(history: seq<Mutation>, from: nat, end: nat, sequence: nat)
    requires from <= sequence <= end <= |history|
    ensures UpTo(EntriesOf(history, from, end), sequence) == EntriesOf(history, from, sequence)
    decreases end
  {
    var all := EntriesOf(history, from, end);
    if from < end {
      assert all[..|all| - 1] == EntriesOf(history, from, end - 1);
      if sequence == end {
        UpToAll(history, from, end - 1, end);
        assert EntriesOf(history, from, end) == EntriesOf(history, from, end - 1) + [all[|all| - 1]];
      } else {
        UpToPrefix(history, from, end - 1, sequence);
      }
    }
  }

  lemma {:induction false} UpToAll(history: seq<Mutation>, from: nat, end: nat, sequence: nat)
    requires from <= end <= |history| && end <= sequence
    ensures UpTo(EntriesOf(history, from, end), sequence) == EntriesOf(history, from, end)
    decreases end
  {
    var all := EntriesOf(history, from, end);
    if from < end {
      assert all[..|all| - 1] == EntriesOf(history, from, end - 1);
      UpToAll(history, from, end - 1, sequence);
      assert all == all[..|all| - 1] + [all[|all| - 1]];
    }
  }

  lemma {:induction false} AboveSuffix(history: seq<Mutation>, from: nat, end: nat, sequence: nat)
    requires from <= sequence <= end <= |history|
    ensures Above(EntriesOf(history, from, end), sequence) == EntriesOf(history, sequence, end)
    decreases end
  {
    var all := EntriesOf(history, from, end);
    if from < end {
      assert all[..|all| - 1] == EntriesOf(history, from, end - 1);
      if sequence == end {
        AboveNone(history, from, end - 1, end);
      } else {
        AboveSuffix(history, from, end - 1, sequence);
        assert EntriesOf(history, sequence, end) == EntriesOf(history, sequence, end - 1) + [all[|all| - 1]];
      }
    }
  }

  lemma {:induction false} AboveNone(history: seq<Mutation>, from: nat, end: nat, sequence: nat)
    requires from <= end <= |history| && end <= sequence
    ensures Above(EntriesOf(history, from, end), sequence) == []
    decreases end
  {
    var all := EntriesOf(history, from, end);
    if from < end {
      assert all[..|all| - 1] == EntriesOf(history, from, end - 1);
      AboveNone(history, from, end - 1, sequence);
    }
  }

  /** Replay returns exactly the contiguous mutations above the base that were committed. */
  lemma ReplayIsCommittedHistory(c: Codec, w: World)
    requires ValidCodec(c) && Intact(c, w)
    ensures ReplayOf(c, w.log.file) == Ok(EntriesOf(w.history, w.log.base, w.log.committed))
  {
    IntactScans(c, w);
    UpToPrefix(w.history, w.log.base, w.log.last, w.log.committed);
  }

  // ---------------------------------------------------------------------------
  // Every step keeps the log intact

  lemma WriteAtEnd(file: seq<Byte>, data: seq<Byte>)
    ensures WriteAt(file, |file|, data) == file + data
  {
    assert file[..|file|] == file;
  }

  lemma AppendedBytes(c: Codec, w: World, r: Record)
    requires Intact(c, w)
    ensures WithRecord(c, w.log, r).file == LogBytes(c, w.log.base, w.records + [r])
    ensures WithRecord(c, w.log, r).cursor == |WithRecord(c, w.log, r).file|
  {
    WriteAtEnd(w.log.file, RecordBytes(c, r));
    PlaySnoc(c, StartScan(w.log.base), w.records, r);
    hide RecordBytes, RecordsBytes, Header, Play, Playable;
    assert Header(w.log.base) + RecordsBytes(c, w.records) + RecordBytes(c, r) ==
      Header(w.log.base) + (RecordsBytes(c, w.records) + RecordBytes(c, r));
  }

  lemma AppendIsValid(c: Codec, w: World, m: Mutation)
    requires ValidCodec(c) && Intact(c, w) && CanAppend(c, w.log, m)
    ensures ValidRecord(c, AppendRecord(c, w.log, m))
    ensures Follows(Play(c, StartScan(w.log.base), w.records), AppendRecord(c, w.log, m))
  {
  }

  /** `t` is `w` with one more record at its end. */
  ghost predicate Extended(c: Codec, w: World, r: Record, t: World) {
    && Ordered(w) && Ordered(t)
    && t.log.file == WithRecord(c, w.log, r).file && t.log.cursor == |t.log.file| && t.log.base == w.log.base
    && t.records == w.records + [r] && (w.records == [] ==> r.Change?)
    && match r
       case Change(e) =>
         t.history == w.history + [e.mutation] && e.sequence == t.log.last && t.log.committed == w.log.committed
       case Commit(sequence) => t.history == w.history && t.log.committed == sequence
  }

  /** One more valid record at the end of an intact log. */
  lemma ExtendKeepsRepresents(c: Codec, w: World, r: Record, t: World)
    requires Intact(c, w) && ValidRecord(c, r) && Extended(c, w, r, t)
    requires Follows(Play(c, StartScan(w.log.base), w.records), r)
    ensures Represents(c, t)
  {
    hide Play, Playable, RecordsBytes, RecordBytes, WithRecord, LogBytes, ValidRecord, Durable, Follows, EntriesOf;
    AppendedBytes(c, w, r);
    PlaySnoc(c, StartScan(w.log.base), w.records, r);
    PlayMeasures(c, StartScan(w.log.base), w.records + [r]);
    if r.Change? {
      EntriesGrow(w.history, w.log.base, r.entry.mutation);
    }
  }

  lemma EntriesGrow(history: seq<Mutation>, base: nat, m: Mutation)
    requires base <= |history|
    ensures EntriesOf(history + [m], base, |history| + 1) ==
      EntriesOf(history, base, |history|) + [Entry(|history| + 1, m)]
  {
  }

  lemma AppendKeepsIntact(c: Codec, w: World, m: Mutation)
    requires ValidCodec(c) && Intact(c, w)
    ensures Intact(c, Next(c, w, Append(m)))
  {
    if CanAppend(c, w.log, m) {
      var r := AppendRecord(c, w.log, m);
      AppendIsValid(c, w, m);
      AppendedBytes(c, w, r);
      var t := Next(c, w, Append(m));
      assert (w.records + [r])[..w.durable] == w.records[..w.durable];
      hide Play, Playable, ValidRecord, Follows, LogBytes, RecordBytes, WriteAt, EntriesOf;
      assert Durable(c, t);
      hide Represents, Durable;
      ExtendKeepsRepresents(c, w, r, t);
    }
  }

  /** A commit record written at the end of an intact log; what was secured still is. */
  lemma WrittenKeepsIntact(c: Codec, w: World, sequence: nat)
    requires ValidCodec(c) && Intact(c, w) && w.log.committed < sequence <= w.log.last
    ensures Intact(c, CommitWritten(c, w, sequence))
    ensures Secured(c, CommitWritten(c, w, sequence)) == Secured(c, w)
  {
    var r, t := Commit(sequence), CommitWritten(c, w, sequence);
    AppendedBytes(c, w, r);
    NonemptyWhenAdvanced(c, w);
    assert (w.records + [r])[..w.durable] == w.records[..w.durable];
    assert Follows(Play(c, StartScan(w.log.base), w.records), r);
    hide Play, Playable, LogBytes, RecordBytes, WriteAt, EntriesOf;
    assert Durable(c, t);
    hide Represents, Durable;
    ExtendKeepsRepresents(c, w, r, t);
  }

  lemma CommittingKeepsIntact(c: Codec, w: World, sequence: nat)
    requires ValidCodec(c) && Intact(c, w) && CanCommit(w.log, sequence)
    ensures Intact(c, Committing(c, w, sequence)) && Secured(c, Committing(c, w, sequence)) == Secured(c, w)
    ensures Committing(c, w, sequence).log.committed == sequence
  {
    hide Intact, Secured, CommitWritten;
    if sequence != w.log.committed {
      WrittenKeepsIntact(c, w, sequence);
      assert CommitWritten(c, w, sequence).log.committed == sequence by { WrittenShape(c, w, sequence); }
    }
  }

  lemma WrittenShape(c: Codec, w: World, sequence: nat)
    ensures var t := CommitWritten(c, w, sequence);
      && t.log.committed == sequence && t.log.base == w.log.base && t.log.last == w.log.last && t.history == w.history
      && t.log.synced == w.log.synced && t.durable == w.durable && t.records == w.records + [Commit(sequence)]
  {
  }

  /** Syncing secures all that is committed. */
  lemma SyncSecures(c: Codec, w: World)
    requires Intact(c, w)
    ensures Intact(c, Synced(w)) && Secured(c, Synced(w)) == w.log.committed
  {
    hide Play, Playable, LogBytes, EntriesOf;
    assert w.records[..|w.records|] == w.records;
  }

  /** A commit that returns has secured its sequence. */
  lemma CommitSecures(c: Codec, w: World, sequence: nat)
    requires ValidCodec(c) && Intact(c, w)
    ensures var t := Next(c, w, CommitTo(sequence));
      Intact(c, t) && (CanCommit(w.log, sequence) ==> Secured(c, t) == sequence)
  {
    hide Intact, Secured, Synced, Committing;
    if CanCommit(w.log, sequence) {
      CommittingKeepsIntact(c, w, sequence);
      SyncSecures(c, Committing(c, w, sequence));
    }
  }

  lemma NonemptyWhenAdvanced(c: Codec, w: World)
    requires Intact(c, w) && w.log.last > w.log.base
    ensures w.records != []
  {
  }

  lemma EntriesSnoc(history: seq<Mutation>, base: nat, end: nat)
    requires base < end <= |history|
    ensures EntriesOf(history, base, end) == EntriesOf(history, base, end - 1) + [Entry(end, history[end - 1])]
    ensures Changes(EntriesOf(history, base, end)) ==
      Changes(EntriesOf(history, base, end - 1)) + [Change(Entry(end, history[end - 1]))]
  {
  }

  /** The scan of `end - base` mutations after `base`, none of them committed. */
  ghost predicate Pending(s: Scan, history: seq<Mutation>, base: nat, end: nat)
    requires base <= end <= |history|
  {
    s.base == base && s.last == end && s.committed == base && !s.tail && s.entries == EntriesOf(history, base, end)
  }

  lemma PendingStep(s: Scan, history: seq<Mutation>, base: nat, end: nat, size: nat)
    requires base < end <= |history| < UINT64 && Pending(s, history, base, end - 1)
    ensures var r := Change(Entry(end, history[end - 1]));
      Follows(s, r) && Pending(Take(s, r, size), history, base, end)
  {
    EntriesSnoc(history, base, end);
  }

  lemma {:induction false} ChangesPlay(c: Codec, history: seq<Mutation>, base: nat, end: nat)
    requires base <= end <= |history| < UINT64
    requires forall i :: base <= i < end ==> ValidRecord(c, Change(Entry(i + 1, history[i])))
    ensures var rs := Changes(EntriesOf(history, base, end));
      Playable(c, StartScan(base), rs) && Pending(Play(c, StartScan(base), rs), history, base, end)
    decreases end
  {
    if base == end {
      assert EntriesOf(history, base, end) == [];
      assert Changes([]) == [];
    } else {
      hide Play, Playable, Pending, Take, Follows, ValidRecord, StartScan, EntriesOf, Changes;
      var init, r := Changes(EntriesOf(history, base, end - 1)), Change(Entry(end, history[end - 1]));
      ChangesPlay(c, history, base, end - 1);
      EntriesSnoc(history, base, end);
      PlaySnoc(c, StartScan(base), init, r);
      PendingStep(Play(c, StartScan(base), init), history, base, end, |RecordBytes(c, r)|);
    }
  }

  lemma HistoryIsValid(c: Codec, w: World)
    requires Intact(c, w)
    ensures forall i :: w.log.base <= i < w.log.last ==> ValidRecord(c, Change(Entry(i + 1, w.history[i])))
  {
    PlayCoherent(c, w.log.base, w.records);
    var entries := EntriesOf(w.history, w.log.base, w.log.last);
    forall i | w.log.base <= i < w.log.last ensures ValidRecord(c, Change(Entry(i + 1, w.history[i]))) {
      assert entries[i - w.log.base] == Entry(i + 1, w.history[i]);
    }
  }

  /** The records a checkpoint writes play to the same state with the new base. */
  lemma RewrittenPlays(c: Codec, w: World, sequence: nat, scan: Scan)
    requires ValidCodec(c) && Intact(c, w) && w.log.base <= sequence <= w.log.committed
    requires ScanLog(c, w.log.file) == Ok(scan)
    ensures var rs := Rewritten(sequence, scan);
      && Playable(c, StartScan(sequence), rs)
      && Play(c, StartScan(sequence), rs) ==
           Scan(sequence, w.log.last, w.log.committed, |LogBytes(c, sequence, rs)|, false,
             EntriesOf(w.history, sequence, w.log.last))
      && (rs != [] ==> rs[0].Change?)
  {
    IntactScans(c, w);
    AboveSuffix(w.history, w.log.base, w.log.last, sequence);
    HistoryIsValid(c, w);
    ChangesPlay(c, w.history, sequence, w.log.last);
    var changes := Changes(EntriesOf(w.history, sequence, w.log.last));
    var rs := Rewritten(sequence, scan);
    if w.log.committed > sequence {
      PlaySnoc(c, StartScan(sequence), changes, Commit(w.log.committed));
    } else {
      assert rs == changes;
    }
    PlayMeasures(c, StartScan(sequence), rs);
    hide Play, Playable, RecordsBytes, RecordBytes, Intact;
  }

  lemma TruncateKeepsIntact(c: Codec, w: World, sequence: nat)
    requires ValidCodec(c) && Intact(c, w)
    ensures Intact(c, Next(c, w, Truncate(sequence)))
  {
    hide ScanLog, Rewritten, Play, Playable, LogBytes, EntriesOf, Represents, Durable;
    TruncateSucceeds(c, w, sequence);
    if CanTruncate(c, w.log, sequence) {
      IntactScans(c, w);
      var scan := ScanLog(c, w.log.file).value;
      RewrittenPlays(c, w, sequence, scan);
      CheckpointIntact(c, w, sequence, Rewritten(sequence, scan));
    }
  }

  lemma CheckpointIntact(c: Codec, w: World, sequence: nat, rs: seq<Record>)
    requires sequence <= w.log.committed <= w.log.last == |w.history| < UINT64
    requires Playable(c, StartScan(sequence), rs) && (rs != [] ==> rs[0].Change?)
    requires Play(c, StartScan(sequence), rs) ==
      Scan(sequence, w.log.last, w.log.committed, |LogBytes(c, sequence, rs)|, false,
        EntriesOf(w.history, sequence, w.log.last))
    ensures var file := LogBytes(c, sequence, rs);
      Intact(c, World(LogState(file, |file|, |file|, sequence, w.log.last, w.log.committed), rs, |rs|, w.history))
  {
    hide Play, Playable, LogBytes, EntriesOf;
    assert rs[..|rs|] == rs;
  }

  /** A checkpoint inside the committed range always succeeds on an intact log. */
  lemma TruncateSucceeds(c: Codec, w: World, sequence: nat)
    requires ValidCodec(c) && Intact(c, w)
    ensures CanTruncate(c, w.log, sequence) <==> w.log.base <= sequence <= w.log.committed
  {
    if w.log.base <= sequence <= w.log.committed {
      IntactScans(c, w);
      AboveSuffix(w.history, w.log.base, w.log.last, sequence);
      HistoryIsValid(c, w);
      var left := EntriesOf(w.history, sequence, w.log.last);
      forall e | e in left ensures c.trim(e.mutation.document.id) != [] && Fits(e.mutation) {
        var i :| 0 <= i < |left| && left[i] == e;
        assert ValidRecord(c, Change(Entry(sequence + i + 1, w.history[sequence + i])));
      }
    }
  }

  lemma {:induction false} RecordsPrefix(c: Codec, rs: seq<Record>, k: nat)
    requires k <= |rs|
    ensures |RecordsBytes(c, rs[..k])| <= |RecordsBytes(c, rs)|
    ensures RecordsBytes(c, rs)[..|RecordsBytes(c, rs[..k])|] == RecordsBytes(c, rs[..k])
    decreases |rs|
  {
    if k > 0 {
      RecordsPrefix(c, rs[1..], k - 1);
      assert rs[..k][1..] == rs[1..][..k - 1];
      var b, more := RecordBytes(c, rs[0]), RecordsBytes(c, rs[1..]);
      assert (b + more)[..|b| + |RecordsBytes(c, rs[1..][..k - 1])|] == b + more[..|RecordsBytes(c, rs[1..][..k - 1])|];
    }
  }

  lemma LogPrefix(c: Codec, base: nat, rs: seq<Record>, k: nat)
    requires k <= |rs|
    ensures |LogBytes(c, base, rs[..k])| <= |LogBytes(c, base, rs)|
    ensures LogBytes(c, base, rs)[..|LogBytes(c, base, rs[..k])|] == LogBytes(c, base, rs[..k])
  {
    RecordsPrefix(c, rs, k);
    hide RecordsBytes;
    var n := |RecordsBytes(c, rs[..k])|;
    assert LogBytes(c, base, rs)[..HEADER_SIZE + n] == Header(base) + RecordsBytes(c, rs)[..n];
  }

  /** Reopening a cut file: it is cut back to its whole records, of which at least the synced ones remain. */
  lemma ReopenedAfterCut(c: Codec, base: nat, rs: seq<Record>, durable: nat, cut: nat)
    requires ValidCodec(c) && base < UINT64 && Playable(c, StartScan(base), rs) && durable <= |rs|
    requires |LogBytes(c, base, rs[..durable])| <= cut <= |LogBytes(c, base, rs)|
    ensures HEADER_SIZE <= cut
    ensures var k, synced := WholeCount(c, rs, cut - HEADER_SIZE), |LogBytes(c, base, rs[..durable])|;
      var whole := Play(c, StartScan(base), rs[..k]);
      var file := LogBytes(c, base, rs[..k]);
      && k >= durable && |file| <= cut
      && Opened(c, LogBytes(c, base, rs)[..cut], synced) ==
           Ok(LogState(file, |file|, if cut == |file| then synced else |file|, base, whole.last, whole.committed))
  {
    hide Play, Playable, ScanLog, LogBytes, WholeCount, RecordsBytes;
    var k := WholeCount(c, rs, cut - HEADER_SIZE);
    var file := LogBytes(c, base, rs);
    var whole := Play(c, StartScan(base), rs[..k]);
    ScanCutLog(c, base, rs, cut);
    WholeReaches(c, rs, durable, cut - HEADER_SIZE);
    LogPrefix(c, base, rs, k);
    PlayMeasures(c, StartScan(base), rs[..k]);
    assert file[..cut][..whole.valid] == file[..whole.valid];
    assert cut == |file[..cut]|;
  }

  /** A crash at any byte at or after the last sync, and opening again: an intact log with a prefix of the history, in
      which the commit is at least the one that was secured and at most the one in memory. */
  lemma CrashKeepsIntact(c: Codec, w: World, cut: nat)
    requires ValidCodec(c) && Intact(c, w)
    ensures var t := Crashed(c, w, cut);
      && Intact(c, t) && t.log.base == w.log.base && t.history <= w.history
      && Secured(c, w) <= Secured(c, t) <= t.log.committed <= w.log.committed
  {
    hide Play, Playable, LogBytes, WholeCount, Opened, EntriesOf, Represents, Durable, Secured;
    if w.log.synced <= cut <= |w.log.file| && HEADER_SIZE <= cut {
      var k := WholeCount(c, w.records, cut - HEADER_SIZE);
      ReopenedAfterCrash(c, w, cut);
      CrashedWorld(c, w, k, Crashed(c, w, cut).durable);
    } else {
      SecuredWithin(c, w);
    }
  }

  lemma ReopenedAfterCrash(c: Codec, w: World, cut: nat)
    requires ValidCodec(c) && Intact(c, w) && w.log.synced <= cut <= |w.log.file|
    ensures HEADER_SIZE <= cut
    ensures var k := WholeCount(c, w.records, cut - HEADER_SIZE);
      var whole := Play(c, StartScan(w.log.base), w.records[..k]);
      var file, t := LogBytes(c, w.log.base, w.records[..k]), Crashed(c, w, cut);
      && w.durable <= k <= |w.records| && |file| <= cut
      && w.durable <= t.durable <= k && t.log.synced == |LogBytes(c, w.log.base, w.records[..t.durable])|
      && t == World(LogState(file, |file|, t.log.synced, w.log.base, whole.last, whole.committed), w.records[..k],
           t.durable,
                    if whole.last <= |w.history| then w.history[..whole.last] else w.history)
  {
    hide Play, Playable, LogBytes, WholeCount, Opened, EntriesOf;
    ReopenedAfterCut(c, w.log.base, w.records, w.durable, cut);
  }

  lemma CrashedWorld(c: Codec, w: World, k: nat, durable: nat)
    requires ValidCodec(c) && Intact(c, w) && w.durable <= durable <= k <= |w.records|
    ensures var s := Play(c, StartScan(w.log.base), w.records[..k]);
      var file, synced := LogBytes(c, w.log.base, w.records[..k]), |LogBytes(c, w.log.base, w.records[..durable])|;
      var t := World(LogState(file, |file|, synced, w.log.base, s.last, s.committed), w.records[..k], durable,
                     if s.last <= |w.history| then w.history[..s.last] else w.history);
      && Intact(c, t) && t.history <= w.history && s.committed <= w.log.committed
      && Secured(c, w) <= Secured(c, t) <= s.committed
  {
    hide RecordsBytes;
    CrashedRecords(c, w, k);
    var rs := w.records[..k];
    assert rs[..durable] == w.records[..durable] && rs[..durable][..w.durable] == w.records[..w.durable];
    PlayPrefix(c, w.log.base, rs, durable);
    PlayPrefix(c, w.log.base, rs[..durable], w.durable);
    hide Play, Playable, EntriesOf;
  }

  lemma CrashedRecords(c: Codec, w: World, k: nat)
    requires Intact(c, w) && k <= |w.records|
    ensures var s := Play(c, StartScan(w.log.base), w.records[..k]);
      && Playable(c, StartScan(w.log.base), w.records[..k]) && w.log.base <= s.committed <= s.last <= |w.history|
      && s.committed <= w.log.committed
      && s == Scan(w.log.base, s.last, s.committed, |LogBytes(c, w.log.base, w.records[..k])|, false,
                   EntriesOf(w.history[..s.last], w.log.base, s.last))
      && (w.records[..k] != [] ==> w.records[0].Change?)
  {
    hide RecordsBytes, ValidRecord, Durable, Playable;
    var rs := w.records[..k];
    PlayPrefix(c, w.log.base, w.records, k);
    PlayCoherent(c, w.log.base, rs);
    PlayMeasures(c, StartScan(w.log.base), rs);
    var s := Play(c, StartScan(w.log.base), rs);
    hide Play;
    assert |s.entries| <= |EntriesOf(w.history, w.log.base, w.log.last)|;
    assert s.entries == EntriesOf(w.history[..s.last], w.log.base, s.last);
  }

  /** A crash between the write of a commit record and its sync: the commit took effect if the whole record survived,
      and otherwise nothing later than the old commit did. */
  lemma CrashInCommitEitherWay(c: Codec, w: World, sequence: nat, cut: nat)
    requires ValidCodec(c) && Intact(c, w) && w.log.committed < sequence <= w.log.last
    requires w.log.synced <= cut <= |CommitWritten(c, w, sequence).log.file|
    ensures var t, end := Next(c, w, CrashInCommit(sequence, cut)), |CommitWritten(c, w, sequence).log.file|;
      && (cut == end ==> t.log.committed == sequence && t.history == w.history)
      && (cut < end ==> t.log.committed <= w.log.committed)
      && (cut < end && Secured(c, w) == w.log.committed ==> t.log.committed == w.log.committed)
  {
    hide Crashed, CommitWritten, Secured, Intact;
    var u := CommitWritten(c, w, sequence);
    WrittenKeepsIntact(c, w, sequence);
    WrittenShape(c, w, sequence);
    if cut < |u.log.file| {
      CutCommitLost(c, w, sequence, cut);
      CrashKeepsIntact(c, u, cut);
    } else {
      WholeFileSurvives(c, u);
    }
  }

  lemma CutCommitLost(c: Codec, w: World, sequence: nat, cut: nat)
    requires ValidCodec(c) && Intact(c, w) && Intact(c, CommitWritten(c, w, sequence))
    requires w.log.synced <= cut < |CommitWritten(c, w, sequence).log.file|
    ensures Crashed(c, CommitWritten(c, w, sequence), cut).log.committed <= w.log.committed
  {
    hide Crashed, CommitWritten, Intact, Play, Playable, LogBytes, WholeCount, EntriesOf, RecordsBytes;
    var u := CommitWritten(c, w, sequence);
    WrittenShape(c, w, sequence);
    ReopenedAfterCrash(c, u, cut);
    IntactMeans(c, u);
    var k := WholeCount(c, u.records, cut - HEADER_SIZE);
    assert u.records[..|u.records|] == u.records;
    assert k <= |w.records|;
    assert u.records[..k] == w.records[..k];
    CrashedRecords(c, w, k);
  }

  /** A crash that loses nothing. */
  lemma WholeFileSurvives(c: Codec, w: World)
    requires ValidCodec(c) && Intact(c, w)
    ensures var t := Crashed(c, w, |w.log.file|); t.log.committed == w.log.committed && t.history == w.history
  {
    hide Crashed, Intact, Play, WholeCount, EntriesOf, RecordsBytes;
    SyncedWithin(c, w);
    ReopenedAfterCrash(c, w, |w.log.file|);
    IntactMeans(c, w);
    assert w.records[..|w.records|] == w.records;
    WholeReaches(c, w.records, |w.records|, |w.log.file| - HEADER_SIZE);
    PlayedInMemory(c, w);
    assert w.history[..|w.history|] == w.history;
  }

  lemma SyncedWithin(c: Codec, w: World)
    requires Intact(c, w)
    ensures w.log.synced <= |w.log.file|
  {
    hide Play, Playable, EntriesOf, LogBytes;
    LogPrefix(c, w.log.base, w.records, w.durable);
  }

  lemma PlayedInMemory(c: Codec, w: World)
    requires Intact(c, w)
    ensures var s := Play(c, StartScan(w.log.base), w.records); s.committed == w.log.committed && s.last == |w.history|
  {
    hide Play, Playable, LogBytes, EntriesOf, Durable;
  }

  /** What an intact log's file and records are. */
  lemma IntactMeans(c: Codec, w: World)
    requires Intact(c, w)
    ensures w.log.file == LogBytes(c, w.log.base, w.records) && w.log.base < UINT64
    ensures Playable(c, StartScan(w.log.base), w.records)
    ensures Play(c, StartScan(w.log.base), w.records).last == w.log.last
  {
    hide Play, Playable, LogBytes, EntriesOf, Durable;
  }

  // ---------------------------------------------------------------------------
  // Whole runs

  function Exec(c: Codec, w: World, steps: seq<Step>): World {
    if steps == [] then w else Next(c, Exec(c, w, steps[..|steps| - 1]), steps[|steps| - 1])
  }

  lemma FreshIsIntact(c: Codec)
    requires ValidCodec(c)
    ensures Intact(c, FRESH)
  {
    assert Header(0) + [] == Header(0);
    assert EntriesOf([], 0, 0) == [];
  }

  lemma ReplayKeepsIntact(c: Codec, w: World)
    requires ValidCodec(c) && Intact(c, w)
    ensures Next(c, w, Replay) == w
  {
    IntactScans(c, w);
    SuccessfulScanEnds(c, w.log.file);
    hide ScanLog, CursorAfterScan, Play, Playable, LogBytes, EntriesOf, Durable;
  }

  lemma AppendKeeps(c: Codec, w: World, m: Mutation)
    requires ValidCodec(c) && Intact(c, w)
    ensures Intact(c, Next(c, w, Append(m))) && Keeps(c, w, Next(c, w, Append(m)))
  {
    AppendKeepsIntact(c, w, m);
    SecuredWithin(c, w);
    hide Play, CanAppend, Represents, RecordBytes, WriteAt;
    if CanAppend(c, w.log, m) {
      assert (w.records + [AppendRecord(c, w.log, m)])[..w.durable] == w.records[..w.durable];
    }
  }

  lemma CommitKeeps(c: Codec, w: World, sequence: nat)
    requires ValidCodec(c) && Intact(c, w)
    ensures Intact(c, Next(c, w, CommitTo(sequence))) && Keeps(c, w, Next(c, w, CommitTo(sequence)))
  {
    hide Represents, Durable, Secured, Next;
    CommitSecures(c, w, sequence);
    CommitShape(c, w, sequence);
    SecuredWithin(c, w);
    SecuredWithin(c, Next(c, w, CommitTo(sequence)));
    DurableWithin(c, w);
    DurableWithin(c, Next(c, w, CommitTo(sequence)));
  }

  lemma TruncateKeeps(c: Codec, w: World, sequence: nat)
    requires ValidCodec(c) && Intact(c, w)
    ensures Intact(c, Next(c, w, Truncate(sequence))) && Keeps(c, w, Next(c, w, Truncate(sequence)))
  {
    hide Represents, Durable, Secured, Next;
    TruncateKeepsIntact(c, w, sequence);
    TruncateShape(c, w, sequence);
    SecuredWithin(c, w);
    SecuredWithin(c, Next(c, w, Truncate(sequence)));
    DurableWithin(c, w);
    DurableWithin(c, Next(c, w, Truncate(sequence)));
  }

  lemma DurableWithin(c: Codec, w: World)
    requires Intact(c, w)
    ensures w.durable <= |w.records|
  {
  }

  /** Every step keeps the log intact, never takes a secured commit back, and leaves what was secured in its place. */
  lemma StepKeeps(c: Codec, w: World, step: Step)
    requires ValidCodec(c) && Intact(c, w)
    ensures Intact(c, Next(c, w, step)) && Keeps(c, w, Next(c, w, step))
  {
    hide Intact, Keeps, Secured, Crashed, Committing;
    match step
    case Append(m) => AppendKeeps(c, w, m);
    case CommitTo(sequence) => CommitKeeps(c, w, sequence);
    case Replay =>
      ReplayKeepsIntact(c, w);
      KeepsItself(c, w);
    case Truncate(sequence) => TruncateKeeps(c, w, sequence);
    case Crash(cut) =>
      CrashKeepsIntact(c, w, cut);
      KeepsAfterCrash(c, w, Crashed(c, w, cut));
    case CrashInCommit(sequence, cut) =>
      if CanCommit(w.log, sequence) {
        CommittingKeepsIntact(c, w, sequence);
        CommittingShape(c, w, sequence);
        CrashKeepsIntact(c, Committing(c, w, sequence), cut);
        KeepsAfterCrash(c, w, Crashed(c, Committing(c, w, sequence), cut));
      } else {
        KeepsItself(c, w);
      }
  }

  lemma CommittingShape(c: Codec, w: World, sequence: nat)
    ensures Committing(c, w, sequence).log.base == w.log.base && Committing(c, w, sequence).history == w.history
  {
    WrittenShape(c, w, sequence);
  }

  lemma KeepsItself(c: Codec, w: World)
    requires Intact(c, w)
    ensures Keeps(c, w, w)
  {
    SecuredWithin(c, w);
    hide Secured, Represents;
  }

  lemma KeepsAfterCrash(c: Codec, w: World, t: World)
    requires Intact(c, w) && Intact(c, t) && t.log.base == w.log.base && t.history <= w.history &&
      Secured(c, w) <= Secured(c, t)
    ensures Keeps(c, w, t)
  {
    SecuredWithin(c, w);
    SecuredWithin(c, t);
    hide Secured, Represents, Durable;
  }

  lemma CommitShape(c: Codec, w: World, sequence: nat)
    requires Ordered(w)
    ensures var t := Next(c, w, CommitTo(sequence));
      t.log.base == w.log.base && t.history == w.history && (!CanCommit(w.log, sequence) ==> t == w)
      && (CanCommit(w.log, sequence) ==> w.log.committed <= sequence <= |w.history|)
  {
    hide WithRecord;
    WrittenShape(c, w, sequence);
  }

  lemma TruncateShape(c: Codec, w: World, sequence: nat)
    requires ValidCodec(c) && Intact(c, w)
    ensures var t := Next(c, w, Truncate(sequence));
      && t.history == w.history && w.log.committed <= |w.history|
      && (t == w || (t.log.base == sequence <= w.log.committed && w.log.base <= sequence && t.durable <= |t.records|
           && Secured(c, t) == w.log.committed))
  {
    hide ScanLog, Rewritten, Play, Playable, LogBytes, EntriesOf, Durable;
    TruncateSucceeds(c, w, sequence);
    if CanTruncate(c, w.log, sequence) {
      IntactScans(c, w);
      RewrittenPlays(c, w, sequence, ScanLog(c, w.log.file).value);
      var rs := Rewritten(sequence, ScanLog(c, w.log.file).value);
      assert rs[..|rs|] == rs;
    }
  }

  lemma {:induction false} RunKeepsIntact(c: Codec, w: World, steps: seq<Step>)
    requires ValidCodec(c) && Intact(c, w)
    ensures Intact(c, Exec(c, w, steps))
  {
    hide Next, Intact, Keeps;
    if steps != [] {
      RunKeepsIntact(c, w, steps[..|steps| - 1]);
      StepKeeps(c, Exec(c, w, steps[..|steps| - 1]), steps[|steps| - 1]);
    }
  }

  /** In every run of appends, commits, replays, checkpoints and crashes, also inside a commit, the file is exactly the
      bytes of its records and the in-memory state is what a fresh scan computes. */
  lemma EveryRunIsIntact(c: Codec, steps: seq<Step>)
    requires ValidCodec(c)
    ensures Intact(c, Exec(c, FRESH, steps))
  {
    FreshIsIntact(c);
    RunKeepsIntact(c, FRESH, steps);
  }

  /** What is secured in `w` is secured and unchanged in `t`, and checkpoints only move forward. */
  ghost predicate Keeps(c: Codec, w: World, t: World) {
    && w.durable <= |w.records| && t.durable <= |t.records| && w.log.base <= t.log.base
    && Secured(c, w) <= Secured(c, t) <= t.log.committed <= |t.history| && Secured(c, w) <= |w.history|
    && t.history[..Secured(c, w)] == w.history[..Secured(c, w)]
  }

  lemma KeepsTransitive(c: Codec, w: World, u: World, t: World)
    requires Keeps(c, w, u) && Keeps(c, u, t)
    ensures Keeps(c, w, t)
  {
    hide Secured;
    var n, m := Secured(c, w), Secured(c, u);
    assert t.history[..n] == t.history[..m][..n];
    assert u.history[..n] == u.history[..m][..n];
  }

  /** Durability: whatever a commit that returned covers is still committed at the end of any run that follows, in the
      same place, whatever crashes and checkpoints came between. */
  lemma {:induction false} CommittedMutationsSurvive(c: Codec, w: World, steps: seq<Step>)
    requires ValidCodec(c) && Intact(c, w)
    ensures Keeps(c, w, Exec(c, w, steps))
  {
    hide Next, Keeps, Intact;
    if steps == [] {
      KeepsItself(c, w);
    } else {
      var init := steps[..|steps| - 1];
      CommittedMutationsSurvive(c, w, init);
      RunKeepsIntact(c, w, init);
      StepKeeps(c, Exec(c, w, init), steps[|steps| - 1]);
      KeepsTransitive(c, w, Exec(c, w, init), Exec(c, w, steps));
    }
  }

  /** After a commit that returned and any steps since, replay returns exactly the committed mutations that no
      checkpoint discarded, and every mutation the commit covered is among them unless a checkpoint discarded it. */
  lemma ReplayAfterAnyRun(c: Codec, w: World, sequence: nat, steps: seq<Step>, i: nat)
    requires ValidCodec(c) && Intact(c, w) && CanCommit(w.log, sequence) && i < sequence
    ensures var t := Exec(c, Next(c, w, CommitTo(sequence)), steps);
      && i < |w.history| && t.log.base <= t.log.committed <= |t.history|
      && ReplayOf(c, t.log.file) == Ok(EntriesOf(t.history, t.log.base, t.log.committed))
      && (i >= t.log.base ==> Entry(i + 1, w.history[i]) in ReplayOf(c, t.log.file).value)
  {
    hide Exec, ReplayOf, Represents, Durable, Next, Secured;
    var u := Next(c, w, CommitTo(sequence));
    CommitSecures(c, w, sequence);
    CommitShape(c, w, sequence);
    CommittedMutationsSurvive(c, u, steps);
    RunKeepsIntact(c, u, steps);
    var t := Exec(c, u, steps);
    ReplayIsCommittedHistory(c, t);
    if i >= t.log.base {
      assert t.history[..sequence][i] == u.history[..sequence][i];
      assert EntriesOf(t.history, t.log.base, t.log.committed)[i - t.log.base] == Entry(i + 1, w.history[i]);
    }
  }
}
