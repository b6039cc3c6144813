/** What each call leaves behind on an intact log, in terms of its history and of what a replay returns. */
module WalEffects {

  import opened Bytes
  import opened Encoding
  import opened Documents
  import opened WalCodec
  import opened Wal

  /** The calls follow the run model. */
  lemma CallsAreSteps(c: Codec, w: World, m: Mutation, sequence: nat)
    ensures Next(c, w, Append(m)).log == AfterAppend(c, w.log, m)
    ensures Next(c, w, CommitTo(sequence)).log == AfterCommit(c, w.log, sequence)
    ensures Next(c, w, Truncate(sequence)).log == AfterTruncate(c, w.log, sequence)
  {
    hide WriteAt, RecordBytes, ScanLog, LogBytes, Rewritten;
  }

  /** When a mutation is taken: it has an ID once trimmed, a sequence is left, and its strings fit a 32 MiB record. */
  lemma AppendsIff(c: Codec, l: LogState, m: Mutation)
    ensures var id := c.trim(m.document.id);
      CanAppend(c, l, m) <==>
        && id != [] && l.last != 0xffff_ffff_ffff_ffff
        && |id| + |m.document.title| + |m.document.body| <= 32 * 1024 * 1024 - 32
  {
  }

  /** What is kept of a mutation under its trimmed ID: all of a document, nothing but the ID of a deletion. */
  lemma KeptMutation(c: Codec, m: Mutation)
    ensures var k := Kept(c, m);
      && k.deleted == m.deleted && k.document.id == c.trim(m.document.id)
      && (if m.deleted then k.document.title == [] == k.document.body
          else k.document.title == m.document.title && k.document.body == m.document.body)
  {
  }

  /** An append that is taken adds the mutation at the end of the history and of the file; nothing is committed or
      synced by it, and a replay returns what it did before. One that is refused changes nothing. */
  lemma AppendEffect(c: Codec, w: World, m: Mutation)
    requires ValidCodec(c) && Intact(c, w)
    ensures var l, t := w.log, Next(c, w, Append(m));
      if !CanAppend(c, l, m) then t == w
      else
        && t.history == w.history + [Kept(c, m)] && t.log.last == l.last + 1 == |t.history|
        && t.log.base == l.base && t.log.committed == l.committed && t.log.synced == l.synced
        && |l.file| < |t.log.file| && l.file == t.log.file[..|l.file|]
        && ReplayOf(c, t.log.file) == ReplayOf(c, l.file)
  {
    var t := Next(c, w, Append(m));
    AppendKeepsIntact(c, w, m);
    ReplayIsCommittedHistory(c, w);
    ReplayIsCommittedHistory(c, t);
    if CanAppend(c, w.log, m) {
      WrittenLonger(c, w, AppendRecord(c, w.log, m));
      hide ReplayOf, WithRecord, Represents, Durable, Fits;
      assert w.log.base <= w.log.committed <= |w.history|;
      assert EntriesOf(t.history, w.log.base, w.log.committed) == EntriesOf(w.history, w.log.base, w.log.committed);
    }
  }

  lemma WrittenLonger(c: Codec, w: World, r: Record)
    requires Intact(c, w)
    ensures var file := WithRecord(c, w.log, r).file; |w.log.file| < |file| && w.log.file == file[..|w.log.file|]
  {
    hide LogBytes, Play, Playable, EntriesOf;
    assert w.log.cursor == |w.log.file|;
    assert |RecordBytes(c, r)| >= FRAME_SIZE;
  }

  /** A commit inside the appended range moves the commit there, syncs the whole file, and a replay then returns every
      mutation through it that no checkpoint discarded. One outside that range changes nothing. */
  lemma CommitEffect(c: Codec, w: World, sequence: nat)
    requires ValidCodec(c) && Intact(c, w)
    ensures var l, t := w.log, Next(c, w, CommitTo(sequence));
      if !(l.committed <= sequence <= l.last) then t == w
      else
        && t.history == w.history && t.log.base == l.base && t.log.last == l.last == |w.history|
        && t.log.committed == sequence && t.log.synced == |t.log.file| && l.base <= sequence
        && ReplayOf(c, t.log.file) == Ok(EntriesOf(w.history, l.base, sequence))
  {
    hide WithRecord, ReplayOf, Represents, Durable, EntriesOf;
    var t := Next(c, w, CommitTo(sequence));
    CommitSecures(c, w, sequence);
    ReplayIsCommittedHistory(c, t);
    WrittenShape(c, w, sequence);
  }

  /** A checkpoint inside the committed range makes its sequence the base of a new file, wholly synced, from which a
      replay returns exactly the committed mutations above it; the mutations not yet committed stay in it, and the
      sequences in memory stay as they were. One outside that range changes nothing. */
  lemma TruncateEffect(c: Codec, w: World, sequence: nat)
    requires ValidCodec(c) && Intact(c, w)
    ensures var l, t := w.log, Next(c, w, Truncate(sequence));
      if !(l.base <= sequence <= l.committed) then t == w
      else
        && t.history == w.history && t.log.base == sequence && t.log.committed == l.committed
        && t.log.last == l.last == |w.history| && t.log.synced == |t.log.file|
        && ReplayOf(c, t.log.file) == Ok(EntriesOf(w.history, sequence, l.committed))
        && ScanLog(c, t.log.file).Ok?
        && ScanLog(c, t.log.file).value.entries == EntriesOf(w.history, sequence, l.last)
  {
    hide ScanLog, ReplayOf, Rewritten, LogBytes, EntriesOf, Represents, Durable;
    var t := Next(c, w, Truncate(sequence));
    TruncateSucceeds(c, w, sequence);
    TruncateKeepsIntact(c, w, sequence);
    IntactScans(c, w);
    IntactScans(c, t);
    ReplayIsCommittedHistory(c, t);
  }

  /** Opening nothing starts a log, and opening an intact one that nothing happened to gives it back as it was. */
  lemma OpeningAgain(c: Codec, w: World, synced: nat)
    requires ValidCodec(c) && Intact(c, w)
    ensures Opened(c, [], synced) == Ok(FRESH.log)
    ensures Opened(c, w.log.file, w.log.synced) == Ok(w.log)
  {
    FreshIsIntact(c);
    IntactScans(c, FRESH);
    IntactScans(c, w);
    hide ScanLog, EntriesOf, Durable, Play, Playable, RecordsBytes;
    assert w.log.file != [] && w.log.cursor == |w.log.file|;
  }
}
