/** What is left of a log after a crash, compared with what was there before. */
module WalCrashes {

  import opened Bytes
  import opened Ordering
  import opened Documents
  import opened WalCodec
  import opened Wal

  lemma Reaches(c: Codec, rs: seq<Record>, k: nat, cut: nat, base: nat)
    requires k <= |rs| && cut >= |LogBytes(c, base, rs[..k])|
    ensures cut >= HEADER_SIZE && WholeCount(c, rs, cut - HEADER_SIZE) >= k
  {
    WholeReaches(c, rs, k, cut - HEADER_SIZE);
  }

  /** A cut before the end of a record leaves only earlier records whole. */
  lemma CutBefore(c: Codec, base: nat, rs: seq<Record>, k: nat, n: nat)
    requires k <= |rs| && n <= |rs| && |LogBytes(c, base, rs[..k])| < |LogBytes(c, base, rs[..n])|
    ensures k < n
  {
    hide LogBytes;
    if k >= n {
      assert rs[..k][..n] == rs[..n];
      LogPrefix(c, base, rs[..k], n);
    }
  }

  lemma LongerWithMore(c: Codec, base: nat, rs: seq<Record>, n: nat, k: nat)
    requires n < k <= |rs|
    ensures |LogBytes(c, base, rs[..n])| < |LogBytes(c, base, rs[..k])|
  {
    assert rs[..k][..n + 1] == rs[..n] + [rs[n]];
    RecordsSnoc(c, rs[..n], rs[n]);
    LogPrefix(c, base, rs[..k], n + 1);
    hide RecordsBytes, RecordBytes, Header;
  }

  lemma NoneWhole(c: Codec, n: nat)
    ensures WholeCount(c, [], n) == 0
  {
  }

  lemma {:induction false} FirstLength(c: Codec, rs: seq<Record>)
    requires rs != []
    ensures |RecordsBytes(c, rs)| == |RecordBytes(c, rs[0])| + |RecordsBytes(c, rs[1..])|
  {
    hide RecordBytes;
  }

  lemma {:induction false} FirstWhole(c: Codec, rs: seq<Record>, n: nat)
    requires rs != []
    ensures WholeCount(c, rs, n) == if n < |RecordBytes(c, rs[0])| then 0
      else 1 + WholeCount(c, rs[1..], n - |RecordBytes(c, rs[0])|)
  {
    hide RecordBytes, RecordsBytes;
  }

  lemma {:induction false} WholeCountBefore(c: Codec, rs: seq<Record>, more: seq<Record>, n: nat)
    requires WholeCount(c, rs + more, n) <= |rs|
    ensures WholeCount(c, rs + more, n) == WholeCount(c, rs, Min(n, |RecordsBytes(c, rs)|))
    decreases |rs|
  {
    hide RecordBytes, RecordsBytes, WholeCount;
    NoneWhole(c, Min(n, |RecordsBytes(c, rs)|));
    if rs != [] {
      FirstLength(c, rs);
      FirstWhole(c, rs + more, n);
      FirstWhole(c, rs, Min(n, |RecordsBytes(c, rs)|));
      assert (rs + more)[1..] == rs[1..] + more && (rs + more)[0] == rs[0];
      if n >= |RecordBytes(c, rs[0])| {
        WholeCountBefore(c, rs[1..], more, n - |RecordBytes(c, rs[0])|);
      }
    }
  }

  /** A crash that leaves only the synced bytes leaves only the synced commit. */
  lemma CrashToSynced(c: Codec, w: World)
    requires ValidCodec(c) && Intact(c, w)
    ensures Crashed(c, w, w.log.synced).log.committed == Secured(c, w)
  {
    hide Crashed, Play, Playable, LogBytes, WholeCount, EntriesOf, Represents;
    SyncedWithin(c, w);
    ReopenedAfterCrash(c, w, w.log.synced);
    var k := WholeCount(c, w.records, w.log.synced - HEADER_SIZE);
    if k > w.durable {
      LongerWithMore(c, w.log.base, w.records, w.durable, k);
    }
  }

  /** The part of a log that opening goes by. */
  ghost predicate SameLog(a: World, b: World) {
    && a.log.base == b.log.base && a.log.last == b.log.last && a.log.committed == b.log.committed
    && a.history == b.history && a.log.file == b.log.file
  }

  /** A crash that cuts the new records leaves what the same crash would have left without them. */
  lemma LostChange(c: Codec, w: World, v: World, cut: nat)
    requires ValidCodec(c) && Intact(c, w) && Intact(c, v) && |v.records| == |w.records| + 2 && w.records <= v.records
    requires v.log.base == w.log.base && v.log.synced == w.log.synced && v.durable == w.durable
    requires w.history <= v.history
    requires w.log.synced <= cut < |LogBytes(c, w.log.base, v.records[..|w.records| + 1])| && cut <= |v.log.file|
    ensures SameLog(Crashed(c, v, cut), Crashed(c, w, Min(cut, |w.log.file|)))
  {
    hide Intact, LogBytes, Play, Crashed, WholeCount, EntriesOf, Playable, RecordsBytes, ValidCodec;
    var rs, more := w.records, v.records[|w.records|..];
    assert v.records == rs + more;
    IntactMeans(c, w);
    SyncedWithin(c, w);
    ReopenedAfterCrash(c, v, cut);
    ReopenedAfterCrash(c, w, Min(cut, |w.log.file|));
    var k := WholeCount(c, v.records, cut - HEADER_SIZE);
    CutBefore(c, w.log.base, v.records, k, |rs| + 1);
    WholeCountBefore(c, rs, more, cut - HEADER_SIZE);
    assert |w.log.file| == HEADER_SIZE + |RecordsBytes(c, rs)|;
    assert v.records[..k] == rs[..k];
    CrashedRecords(c, w, k);
    var last := Play(c, StartScan(w.log.base), rs[..k]).last;
    assert v.history[..last] == w.history[..last];
  }

  lemma KeptChange(c: Codec, u: World, v: World, k: nat)
    requires Intact(c, u) && Intact(c, v) && v.history == u.history && v.log.base == u.log.base
    requires |v.records| == |u.records| + 1 && v.records[..|u.records|] == u.records && |u.records| <= k <= |v.records|
    ensures Play(c, StartScan(u.log.base), v.records[..k]).last == |u.history|
  {
    hide Intact, Play;
    PlayedInMemory(c, u);
    PlayedInMemory(c, v);
    assert k == |v.records| ==> v.records[..k] == v.records;
  }

  lemma WholeFileStays(c: Codec, w: World)
    requires ValidCodec(c) && Intact(c, w)
    ensures var t := Crashed(c, w, |w.log.file|);
      w.durable <= |w.records| && t.durable <= |t.records| && Secured(c, t) == Secured(c, w)
  {
    hide Crashed, Intact, Play, WholeCount, LogBytes, EntriesOf, Playable, RecordsBytes;
    SyncedWithin(c, w);
    ReopenedAfterCrash(c, w, |w.log.file|);
    IntactMeans(c, w);
    assert w.records[..|w.records|] == w.records;
    Reaches(c, w.records, |w.records|, |w.log.file|, w.log.base);
    UncutKeepsSynced(c, w);
  }

  lemma UncutKeepsSynced(c: Codec, w: World)
    requires ValidCodec(c) && Intact(c, w)
    ensures Crashed(c, w, |w.log.file|).durable == w.durable
  {
    IntactScans(c, w);
    SyncedWithin(c, w);
    IntactMeans(c, w);
    assert w.log.file[..|w.log.file|] == w.log.file;
    hide ScanLog, Intact, WholeCount, LogBytes, Play, Playable;
  }
}
