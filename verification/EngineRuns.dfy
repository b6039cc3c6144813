/** Whole runs of the collection engine, with crashes inside its calls. */
module EngineRuns {

  import opened Bytes
  import opened Wrappers
  import opened Ordering
  import opened Documents
  import opened WalCodec
  import opened Wal
  import opened WalCrashes
  import opened EngineModel

  /** A crash interrupts an upsert or delete between its append and the sync of its commit. */
  datatype Call =
    | Put(document: Document, media: Str)
    | Remove(id: Str)
    | Reopen(cut: nat)
    | Interrupted(document: Document, deleted: bool, cut: nat)

  /** What a call logs. */
  function Requested(cx: Context, call: Call): Option<Mutation> {
    match call
    case Put(d, _) => Some(Mutation(Named(cx, d), false))
    case Remove(id) => Some(Tombstone(cx, id))
    case Reopen(_) => None
    case Interrupted(d, deleted, _) => Some(if deleted then Tombstone(cx, d.id) else Mutation(Named(cx, d), false))
  }

  ghost function After(cx: Context, e: Engine, call: Call): Engine {
    match call
    case Put(d, media) => AfterPut(cx, e, d, media)
    case Remove(id) => AfterRemove(cx, e, id)
    case Reopen(cut) => AfterReopen(cx, e, cut)
    case Interrupted(_, _, cut) => AfterInterrupted(cx, e, Requested(cx, call).value, cut)
  }

  ghost function Run(cx: Context, calls: seq<Call>): Engine {
    if calls == [] then NEW else After(cx, Run(cx, calls[..|calls| - 1]), calls[|calls| - 1])
  }

  /** Every document put in can be embedded and held by the vector index. */
  predicate Placeable(cx: Context, call: Call) {
    Requested(cx, call).Some? ==> Requested(cx, call).value.deleted || CanPlace(cx, Requested(cx, call).value.document)
  }

  ghost predicate AllPlaceable(cx: Context, calls: seq<Call>) {
    forall i :: 0 <= i < |calls| ==> Placeable(cx, calls[i])
  }

  /** A call that returns commits no tail, or none that shows. */
  ghost predicate Harmless(cx: Context, e: Engine, call: Call) {
    (call.Put? || call.Remove?) && Accepts(cx, e, Requested(cx, call).value) ==>
      Bounds(e.world) && Invisible(e, Requested(cx, call).value)
  }

  ghost predicate HarmlessRun(cx: Context, calls: seq<Call>) {
    forall i :: 0 <= i < |calls| ==> Harmless(cx, Run(cx, calls[..i]), calls[i])
  }

  lemma RequestedClean(cx: Context, call: Call)
    requires ValidContext(cx) && Placeable(cx, call) && Requested(cx, call).Some?
    requires cx.trim(Requested(cx, call).value.document.id) != []
    ensures var m := Requested(cx, call).value;
      Clean(cx, m) && (m.deleted ==> m.document.title == [] && m.document.body == [])
  {
    hide CanPlace, ValidContext;
    match call
    case Put(d, _) => TrimTwice(cx, d.id);
    case Remove(id) => TrimTwice(cx, id);
    case Interrupted(d, _, _) => TrimTwice(cx, d.id);
  }

  // ---------------------------------------------------------------------------
  // One step

  lemma PutSound(cx: Context, e: Engine, m: Mutation)
    requires ValidContext(cx) && Sound(cx, e.world) && Clean(cx, m) && CanAppend(LogCodec(cx), e.world.log, m)
    requires m.deleted ==> m.document.title == [] && m.document.body == []
    ensures Sound(cx, Logged(cx, e.world, m))
  {
    hide Sound, Logged, Clean, CanAppend;
    LoggedWorld(cx, e.world, m);
  }

  /** Every call keeps the log sound. */
  lemma StepSound(cx: Context, e: Engine, call: Call)
    requires ValidContext(cx) && Sound(cx, e.world) && Placeable(cx, call)
    ensures Sound(cx, After(cx, e, call).world)
  {
    hide Sound, ValidContext, CanPlace, CanAppend, Clean, Logged, Placed, Removed, AfterReopen, AfterInterrupted,
      Current, Placeable;
    match call {
      case Put(_, _) =>
        if Accepts(cx, e, Requested(cx, call).value) {
          RequestedClean(cx, call);
          PutSound(cx, e, Requested(cx, call).value);
        }
      case Remove(_) =>
        if Accepts(cx, e, Requested(cx, call).value) {
          RequestedClean(cx, call);
          PutSound(cx, e, Requested(cx, call).value);
        }
      case Reopen(cut) => ReopenIsCurrent(cx, e, cut);
      case Interrupted(_, _, cut) => InterruptedStep(cx, e, call);
    }
  }

  lemma InterruptedStep(cx: Context, e: Engine, call: Call)
    requires ValidContext(cx) && Sound(cx, e.world) && Placeable(cx, call) && call.Interrupted?
    ensures Sound(cx, After(cx, e, call).world)
    ensures Accepts(cx, e, Requested(cx, call).value) || After(cx, e, call) == e
    ensures Accepts(cx, e, Requested(cx, call).value) ==> Current(cx, After(cx, e, call))
  {
    hide Sound, ValidContext, CanPlace, CanAppend, Clean, InterruptedLog, Recovered, Current, Placeable;
    var m := Requested(cx, call).value;
    if Accepts(cx, e, m) {
      RequestedClean(cx, call);
      InterruptedIsCurrent(cx, e, m, call.cut);
    }
  }

  /** A call leaves a current engine current exactly if it is harmless. */
  lemma StepCurrentIff(cx: Context, e: Engine, call: Call)
    requires ValidContext(cx) && Sound(cx, e.world) && Current(cx, e) && Placeable(cx, call)
    ensures Current(cx, After(cx, e, call)) <==> Harmless(cx, e, call)
  {
    assert Bounds(e.world);
    hide Sound, ValidContext, CanPlace, CanAppend, Clean, Logged, Placed, Removed, AfterReopen, AfterInterrupted,
      Current, Invisible;
    match call {
      case Put(d, media) =>
        if Accepts(cx, e, Requested(cx, call).value) {
          PutCurrentIff(cx, e, d, media);
        }
      case Remove(id) =>
        if Accepts(cx, e, Requested(cx, call).value) {
          RemoveCurrentIff(cx, e, id);
        }
      case Reopen(cut) => ReopenIsCurrent(cx, e, cut);
      case Interrupted(_, _, cut) => InterruptedStep(cx, e, call);
    }
  }

  // ---------------------------------------------------------------------------
  // Whole runs

  lemma NewIsCurrent(cx: Context)
    requires ValidContext(cx)
    ensures Sound(cx, NEW.world) && Current(cx, NEW) && NoTail(NEW.world)
  {
    FreshIsIntact(LogCodec(cx));
    hide Intact;
  }

  /** In every run of upserts, deletes, reopenings and interrupted calls, the log stays intact and holds only documents
      that can be applied. */
  lemma {:induction false} EveryRunIsSound(cx: Context, calls: seq<Call>)
    requires ValidContext(cx) && AllPlaceable(cx, calls)
    ensures Sound(cx, Run(cx, calls).world)
  {
    hide Sound, Current, ValidContext, After, Placeable;
    if calls == [] {
      NewIsCurrent(cx);
    } else {
      EveryRunIsSound(cx, calls[..|calls| - 1]);
      StepSound(cx, Run(cx, calls[..|calls| - 1]), calls[|calls| - 1]);
    }
  }

  lemma HarmlessPrefix(cx: Context, calls: seq<Call>, k: nat)
    requires HarmlessRun(cx, calls) && k <= |calls|
    ensures HarmlessRun(cx, calls[..k])
  {
    hide Harmless, Run;
    forall i | 0 <= i < k ensures Harmless(cx, Run(cx, calls[..k][..i]), calls[..k][i]) {
      assert calls[..k][..i] == calls[..i];
    }
  }

  /** In every run whose calls are harmless, crashes inside calls included, the documents and both indexes hold the same
      IDs and equal the fold of the committed log. */
  lemma {:induction false} EveryRunIsCurrent(cx: Context, calls: seq<Call>)
    requires ValidContext(cx) && AllPlaceable(cx, calls) && HarmlessRun(cx, calls)
    ensures Current(cx, Run(cx, calls))
  {
    hide Sound, Current, ValidContext, After, Placeable, Harmless;
    if calls == [] {
      NewIsCurrent(cx);
    } else {
      var n := |calls| - 1;
      HarmlessPrefix(cx, calls, n);
      EveryRunIsCurrent(cx, calls[..n]);
      EveryRunIsSound(cx, calls[..n]);
      StepCurrentIff(cx, Run(cx, calls[..n]), calls[n]);
    }
  }

  /** And only in those: the engine agrees with its log all along exactly if no call commits a tail that shows. */
  lemma {:induction false} CurrentThroughoutIff(cx: Context, calls: seq<Call>)
    requires ValidContext(cx) && AllPlaceable(cx, calls)
    ensures (forall k :: 0 <= k <= |calls| ==> Current(cx, Run(cx, calls[..k]))) <==> HarmlessRun(cx, calls)
  {
    hide Sound, Current, ValidContext, After, Placeable, Harmless, Run;
    if HarmlessRun(cx, calls) {
      forall k | 0 <= k <= |calls| ensures Current(cx, Run(cx, calls[..k])) {
        HarmlessPrefix(cx, calls, k);
        EveryRunIsCurrent(cx, calls[..k]);
      }
    } else {
      var i :| 0 <= i < |calls| && !Harmless(cx, Run(cx, calls[..i]), calls[i]);
      EveryRunIsSound(cx, calls[..i]);
      RunNext(cx, calls, i);
      if Current(cx, Run(cx, calls[..i])) {
        StepCurrentIff(cx, Run(cx, calls[..i]), calls[i]);
        assert !Current(cx, Run(cx, calls[..i + 1]));
      }
    }
  }

  lemma RunNext(cx: Context, calls: seq<Call>, i: nat)
    requires i < |calls|
    ensures Run(cx, calls[..i + 1]) == After(cx, Run(cx, calls[..i]), calls[i])
  {
    hide After;
    assert calls[..i + 1][..i] == calls[..i];
  }

  // ---------------------------------------------------------------------------
  // Runs without a crash inside a call

  ghost predicate Uninterrupted(calls: seq<Call>) {
    forall i :: 0 <= i < |calls| ==> !calls[i].Interrupted?
  }

  /** Every commit in the file is synced. */
  ghost predicate Settled(cx: Context, w: World) {
    w.durable <= |w.records| && Secured(LogCodec(cx), w) == w.log.committed
  }

  lemma LoggedSettled(cx: Context, w: World, m: Mutation)
    requires ValidContext(cx) && Intact(LogCodec(cx), w) && CanAppend(LogCodec(cx), w.log, m)
    ensures Settled(cx, Logged(cx, w, m)) && NoTail(Logged(cx, w, m))
  {
    var c := LogCodec(cx);
    var u := Next(c, w, Append(m));
    AppendKeepsIntact(c, w, m);
    CommitSecures(c, u, w.log.last + 1);
    DurableWithin(c, Logged(cx, w, m));
    assert Bounds(w) by { IntactBounds(cx, w); }
    LoggedShape(cx, w, m);
    assert CanCommit(u.log, w.log.last + 1) by { AppendShape(cx, w, m); }
    hide Intact, Secured, Next, Logged;
  }

  lemma IntactBounds(cx: Context, w: World)
    requires Intact(LogCodec(cx), w)
    ensures Bounds(w)
  {
    hide Represents, Durable;
  }

  lemma AppendShape(cx: Context, w: World, m: Mutation)
    requires CanAppend(LogCodec(cx), w.log, m) && Bounds(w)
    ensures var u := Next(LogCodec(cx), w, Append(m));
      u.log.committed == w.log.committed && u.log.last == w.log.last + 1
  {
    hide CanAppend, Kept, WriteAt, RecordBytes;
  }

  /** Reopening a settled log loses no commit; without a tail it leaves none. */
  lemma ReopenSettled(cx: Context, e: Engine, cut: nat)
    requires ValidContext(cx) && Sound(cx, e.world) && Settled(cx, e.world)
    ensures var r := AfterReopen(cx, e, cut);
      && Settled(cx, r.world) && Bounds(e.world) && Bounds(r.world) && Committed(r.world) == Committed(e.world)
      && r.world.log.base == e.world.log.base && r.world.log.committed == e.world.log.committed
      && (NoTail(e.world) ==> NoTail(r.world))
  {
    var c, w := LogCodec(cx), CrashedLog(cx, e.world, cut);
    ContextCodec(cx);
    hide Represents, Durable, Crashed, ValidContext, Secured;
    CrashKeepsIntact(c, e.world, cut);
    DurableWithin(c, w);
    IntactBounds(cx, e.world);
    IntactBounds(cx, w);
    assert Committed(w) == Committed(e.world);
  }

  /** Without interrupted calls no tail ever arises, so every call is harmless. */
  lemma {:induction false} UninterruptedIsHarmless(cx: Context, calls: seq<Call>)
    requires ValidContext(cx) && AllPlaceable(cx, calls) && Uninterrupted(calls)
    ensures HarmlessRun(cx, calls)
    ensures var e := Run(cx, calls); NoTail(e.world) && Settled(cx, e.world)
  {
    hide Sound, Current, ValidContext, After, Placeable, Harmless, Settled;
    if calls == [] {
      FreshSettled(cx);
    } else {
      var n := |calls| - 1;
      UninterruptedIsHarmless(cx, calls[..n]);
      EveryRunIsSound(cx, calls[..n]);
      UninterruptedStep(cx, Run(cx, calls[..n]), calls[n]);
      forall i | 0 <= i < |calls| ensures Harmless(cx, Run(cx, calls[..i]), calls[i]) {
        assert i < n ==> calls[..n][..i] == calls[..i] && calls[..n][i] == calls[i];
      }
    }
  }

  lemma FreshSettled(cx: Context)
    ensures Settled(cx, FRESH) && NoTail(FRESH)
  {
  }

  lemma UninterruptedStep(cx: Context, e: Engine, call: Call)
    requires ValidContext(cx) && Sound(cx, e.world) && NoTail(e.world) && Settled(cx, e.world) && !call.Interrupted?
    ensures Harmless(cx, e, call)
    ensures var r := After(cx, e, call); NoTail(r.world) && Settled(cx, r.world)
  {
    hide Intact, ValidContext, CanAppend, Logged, Placed, Removed, AfterReopen, Settled, Invisible, AllClean, CanPlace;
    IntactBounds(cx, e.world);
    match call {
      case Put(d, _) =>
        var m := Requested(cx, call).value;
        NoTailInvisible(e, m);
        if Accepts(cx, e, m) { LoggedSettled(cx, e.world, m); }
      case Remove(_) =>
        var m := Requested(cx, call).value;
        NoTailInvisible(e, m);
        if Accepts(cx, e, m) { LoggedSettled(cx, e.world, m); }
      case Reopen(cut) => ReopenSettled(cx, e, cut);
    }
  }

  // ---------------------------------------------------------------------------
  // Reopening

  /** The same engine apart from media types. */
  ghost predicate Reproduces(e: Engine, r: Engine) {
    && r.offset == e.offset && r.local.lexical == e.local.lexical && r.local.vectors == e.local.vectors
    && r.local.documents.Keys == e.local.documents.Keys
    && (forall id :: id in e.local.documents ==> r.local.documents[id].document == e.local.documents[id].document)
  }

  /** Opening again, after any crash, reproduces a current engine whose commits are synced. */
  lemma ReopenReproduces(cx: Context, e: Engine, cut: nat)
    requires ValidContext(cx) && Sound(cx, e.world) && Current(cx, e) && Settled(cx, e.world)
    ensures Reproduces(e, AfterReopen(cx, e, cut))
  {
    hide Sound, AfterReopen, ValidContext, Agrees, Fold, Settled;
    ReopenIsCurrent(cx, e, cut);
    ReopenSettled(cx, e, cut);
    SameImageSameState(cx, Fold(map[], Committed(e.world)), e.local, AfterReopen(cx, e, cut).local);
  }

  /** An engine with a commit that is not synced does not survive a crash that leaves only the synced bytes. */
  lemma UnsettledCanLose(cx: Context, e: Engine)
    requires ValidContext(cx) && Sound(cx, e.world) && Current(cx, e) && !Settled(cx, e.world)
    ensures var r := AfterReopen(cx, e, e.world.log.synced);
      && r.offset < e.offset && r.world.log.committed == Secured(LogCodec(cx), e.world) < e.world.log.committed
  {
    hide Intact, ValidContext, Crashed, Secured, Agrees, AllClean, AppliedAll;
    var c := LogCodec(cx);
    ContextCodec(cx);
    DurableWithin(c, e.world);
    SecuredWithin(c, e.world);
    CrashKeepsIntact(c, e.world, e.world.log.synced);
    CrashToSynced(c, e.world);
    IntactBounds(cx, CrashedLog(cx, e.world, e.world.log.synced));
  }

  /** So opening again, after whatever crash, reproduces a current engine if and only if all its commits are synced. */
  lemma ReopenReproducesIff(cx: Context, e: Engine)
    requires ValidContext(cx) && Sound(cx, e.world) && Current(cx, e)
    ensures (forall cut :: Reproduces(e, AfterReopen(cx, e, cut))) <==> Settled(cx, e.world)
  {
    hide Sound, AfterReopen, ValidContext, Current, Settled;
    if Settled(cx, e.world) {
      forall cut ensures Reproduces(e, AfterReopen(cx, e, cut)) {
        ReopenReproduces(cx, e, cut);
      }
    } else {
      UnsettledCanLose(cx, e);
      assert !Reproduces(e, AfterReopen(cx, e, e.world.log.synced));
    }
  }

  // ---------------------------------------------------------------------------
  // What an interrupted call leaves behind

  /** The ends of the two records an upsert or delete writes. */
  function ChangeEnd(cx: Context, w: World, m: Mutation): nat { |Next(LogCodec(cx), w, Append(m)).log.file| }

  function CommitEnd(cx: Context, w: World, m: Mutation): nat {
    |Committing(LogCodec(cx), Next(LogCodec(cx), w, Append(m)), w.log.last + 1).log.file|
  }

  lemma SecuredSame(cx: Context, w: World, m: Mutation)
    requires Intact(LogCodec(cx), w)
    ensures var u := Next(LogCodec(cx), w, Append(m));
      u.durable <= |u.records| && Secured(LogCodec(cx), u) == Secured(LogCodec(cx), w)
  {
    var c := LogCodec(cx);
    DurableWithin(c, w);
    hide Intact, CanAppend, Play, WithRecord;
    if CanAppend(c, w.log, m) {
      assert (w.records + [AppendRecord(c, w.log, m)])[..w.durable] == w.records[..w.durable];
    }
  }

  /** A sound log with a mutation appended, and then its commit written. */
  ghost predicate Writing(cx: Context, w: World, m: Mutation, u: World, v: World) {
    var c := LogCodec(cx);
    && u == Next(c, w, Append(m)) && v == CommitWritten(c, u, w.log.last + 1)
    && Intact(c, w) && Intact(c, u) && Intact(c, v) && Bounds(w)
    && u.log.base == v.log.base == w.log.base && u.history == v.history == w.history + [m]
    && u.log.committed == w.log.committed && u.log.last == w.log.last + 1
    && u.log.synced == v.log.synced == w.log.synced && u.durable == v.durable == w.durable
    && |u.records| == |w.records| + 1 && u.records == w.records + [u.records[|w.records|]]
    && v.records == u.records + [Commit(w.log.last + 1)]
  }

  lemma WritingHolds(cx: Context, w: World, m: Mutation, cut: nat)
    requires ValidContext(cx) && Sound(cx, w) && Clean(cx, m)
    requires CanAppend(LogCodec(cx), w.log, m) && (m.deleted ==> m.document.title == [] && m.document.body == [])
    ensures var c, u := LogCodec(cx), Next(LogCodec(cx), w, Append(m));
      var v := CommitWritten(c, u, w.log.last + 1);
      && Writing(cx, w, m, u, v) && ChangeEnd(cx, w, m) == |u.log.file| && CommitEnd(cx, w, m) == |v.log.file|
      && InterruptedLog(cx, w, m, cut) == Crashed(c, v, cut) == Next(c, u, CrashInCommit(w.log.last + 1, cut))
  {
    hide ValidContext, CanAppend, Clean, AllClean, Intact, Crashed, CommitWritten, WriteAt, RecordBytes;
    var c, sequence := LogCodec(cx), w.log.last + 1;
    var u := Next(c, w, Append(m));
    ContextCodec(cx);
    AppendedSound(cx, w, m);
    AppendedRecord(cx, w, m);
    SoundBounds(cx, w);
    WrittenKeepsIntact(c, u, sequence);
    WrittenShape(c, u, sequence);
  }

  lemma CrashedHistory(cx: Context, w: World, m: Mutation, u: World, v: World, cut: nat)
    requires ValidContext(cx) && Writing(cx, w, m, u, v) && w.log.synced <= cut <= |v.log.file|
    ensures cut < |u.log.file| ==>
      SameLog(Crashed(LogCodec(cx), v, cut), Crashed(LogCodec(cx), w, Min(cut, |w.log.file|)))
    ensures cut >= |u.log.file| ==> Crashed(LogCodec(cx), v, cut).history == w.history + [m]
    ensures cut >= |u.log.file| ==> Crashed(LogCodec(cx), v, cut).log.base == w.log.base
    ensures Intact(LogCodec(cx), Crashed(LogCodec(cx), v, cut))
  {
    hide ValidContext, Intact, Crashed, CommitWritten, Next, Play, Playable, LogBytes, WholeCount, Secured;
    var c := LogCodec(cx);
    ContextCodec(cx);
    CrashKeepsIntact(c, v, cut);
    IntactMeans(c, u);
    assert v.records[..|u.records|] == u.records;
    if cut < |u.log.file| {
      LostChange(c, w, v, cut);
    } else {
      ReopenedAfterCrash(c, v, cut);
      Reaches(c, v.records, |u.records|, cut, u.log.base);
      KeptChange(c, u, v, WholeCount(c, v.records, cut - HEADER_SIZE));
      assert v.history[..|v.history|] == v.history;
    }
  }

  /** With the change whole and its commit cut, the commit is the one in memory before. */
  lemma CrashedCommit(cx: Context, w: World, m: Mutation, u: World, v: World, cut: nat)
    requires ValidContext(cx) && Writing(cx, w, m, u, v) && |u.log.file| <= cut <= |v.log.file| && w.log.synced <= cut
    ensures Crashed(LogCodec(cx), v, cut).log.committed ==
      if cut < |v.log.file| then w.log.committed else w.log.last + 1
  {
    hide ValidContext, Intact, Crashed, CommitWritten, Next, Play, Playable, LogBytes, WholeCount, Secured;
    var c := LogCodec(cx);
    ContextCodec(cx);
    ReopenedAfterCrash(c, v, cut);
    IntactMeans(c, u);
    IntactMeans(c, v);
    var k := WholeCount(c, v.records, cut - HEADER_SIZE);
    assert v.records[..|u.records|] == u.records && v.records[..|v.records|] == v.records;
    Reaches(c, v.records, |u.records|, cut, u.log.base);
    if cut < |v.log.file| {
      CutBefore(c, w.log.base, v.records, k, |v.records|);
      PlayedInMemory(c, u);
    } else {
      Reaches(c, v.records, |v.records|, cut, u.log.base);
      PlayedInMemory(c, v);
      WrittenShape(c, u, w.log.last + 1);
    }
  }

  lemma AppendedRecord(cx: Context, w: World, m: Mutation)
    requires CanAppend(LogCodec(cx), w.log, m)
    ensures var u := Next(LogCodec(cx), w, Append(m));
      |u.records| == |w.records| + 1 && u.records == w.records + [u.records[|w.records|]]
  {
    hide CanAppend, Kept, WithRecord;
  }

  /** What a crash between append and sync leaves, by how much of the file survived: the change lost, and of the rest
      what the same crash would have left before the call; the change as the last of the tail; or everything committed.
      The log may have had a tail or an unsynced commit already. */
  lemma InterruptedLeaves(cx: Context, w: World, m: Mutation, cut: nat)
    requires ValidContext(cx) && Sound(cx, w) && Clean(cx, m)
    requires CanAppend(LogCodec(cx), w.log, m) && (m.deleted ==> m.document.title == [] && m.document.body == [])
    requires w.log.synced <= cut <= CommitEnd(cx, w, m)
    ensures var t := InterruptedLog(cx, w, m, cut);
      && Bounds(w) && Bounds(t)
      && (cut < ChangeEnd(cx, w, m) ==> SameLog(t, CrashedLog(cx, w, Min(cut, |w.log.file|))))
      && (cut >= ChangeEnd(cx, w, m) ==> t.log.base == w.log.base && t.history == w.history + [m])
      && (cut >= ChangeEnd(cx, w, m) ==>
           t.log.committed == if cut < CommitEnd(cx, w, m) then w.log.committed else w.log.last + 1)
  {
    hide ValidContext, CanAppend, Clean, AllClean, Intact, Crashed, CommitWritten, Secured, ChangeEnd, CommitEnd,
      InterruptedLog;
    var c := LogCodec(cx);
    var u := Next(c, w, Append(m));
    var v := CommitWritten(c, u, w.log.last + 1);
    WritingHolds(cx, w, m, cut);
    hide Next;
    CrashedHistory(cx, w, m, u, v, cut);
    if cut >= |u.log.file| {
      CrashedCommit(cx, w, m, u, v, cut);
    }
    IntactBounds(cx, InterruptedLog(cx, w, m, cut));
  }

  /** A tail is left exactly when the change survives whole and its commit does not, or when the change is lost and the
      crash leaves a tail of what was there before. */
  lemma TailLeftIff(cx: Context, w: World, m: Mutation, cut: nat)
    requires ValidContext(cx) && Sound(cx, w) && Clean(cx, m)
    requires CanAppend(LogCodec(cx), w.log, m) && (m.deleted ==> m.document.title == [] && m.document.body == [])
    requires w.log.synced <= cut <= CommitEnd(cx, w, m)
    ensures NoTail(InterruptedLog(cx, w, m, cut)) <==>
      if cut < ChangeEnd(cx, w, m) then NoTail(CrashedLog(cx, w, Min(cut, |w.log.file|)))
      else cut == CommitEnd(cx, w, m)
  {
    hide ValidContext, CanAppend, Clean, Sound, InterruptedLog, ChangeEnd, CommitEnd, CrashedLog;
    InterruptedLeaves(cx, w, m, cut);
  }

  /** On a settled log without a tail: exactly when the change survives whole and its commit does not. */
  lemma TailLeftOnSettledIff(cx: Context, e: Engine, m: Mutation, cut: nat)
    requires ValidContext(cx) && Sound(cx, e.world) && Settled(cx, e.world) && NoTail(e.world) && Clean(cx, m)
    requires CanAppend(LogCodec(cx), e.world.log, m) && (m.deleted ==> m.document.title == [] && m.document.body == [])
    requires e.world.log.synced <= cut <= CommitEnd(cx, e.world, m)
    ensures NoTail(InterruptedLog(cx, e.world, m, cut)) <==>
      !(ChangeEnd(cx, e.world, m) <= cut < CommitEnd(cx, e.world, m))
  {
    hide ValidContext, CanAppend, Clean, Sound, InterruptedLog, ChangeEnd, CommitEnd, CrashedLog, Settled, AfterReopen;
    TailLeftIff(cx, e.world, m, cut);
    ChangeBeforeCommit(cx, e.world, m);
    ReopenSettled(cx, e, Min(cut, |e.world.log.file|));
    ReopenedWorld(cx, e, Min(cut, |e.world.log.file|));
  }

  lemma ReopenedWorld(cx: Context, e: Engine, cut: nat)
    requires ValidContext(cx) && Sound(cx, e.world)
    ensures AfterReopen(cx, e, cut).world == CrashedLog(cx, e.world, cut)
  {
    hide ValidContext, Intact, Crashed, AllClean, AppliedAll, Secured;
    ContextCodec(cx);
    CrashKeepsIntact(LogCodec(cx), e.world, cut);
    IntactBounds(cx, CrashedLog(cx, e.world, cut));
  }

  lemma ChangeBeforeCommit(cx: Context, w: World, m: Mutation)
    requires Sound(cx, w) && ValidContext(cx) && CanAppend(LogCodec(cx), w.log, m)
    ensures w.log.synced <= ChangeEnd(cx, w, m) < CommitEnd(cx, w, m)
  {
    var c, sequence := LogCodec(cx), w.log.last + 1;
    var u := Next(c, w, Append(m));
    IntactBounds(cx, w);
    AppendKeepsIntact(c, w, m);
    SyncedWithin(c, u);
    AppendShape(cx, w, m);
    assert u.log.synced == w.log.synced;
    AppendedBytes(c, u, Commit(sequence));
    IntactMeans(c, u);
    RecordsSnoc(c, u.records, Commit(sequence));
    hide Intact, CanAppend, RecordsBytes, Header;
  }

  // ---------------------------------------------------------------------------
  // A tail that is committed without being applied

  /** One pending upsert of another, new document: the next upsert commits it, and it is in none of the documents and
      indexes. */
  lemma PendingUpsertIsMissed(cx: Context, e: Engine, pending: Document, d: Document, media: Str)
    requires ValidContext(cx) && Sound(cx, e.world) && Current(cx, e)
    requires CanPlace(cx, Named(cx, d)) && Accepts(cx, e, Mutation(Named(cx, d), false))
    requires Tail(e.world) == [Mutation(pending, false)]
    requires pending.id !in e.local.lexical && pending.id != cx.trim(d.id)
    ensures var r := AfterPut(cx, e, d, media);
      && !Current(cx, r) && Bounds(r.world) && pending.id in Fold(map[], Committed(r.world))
      && pending.id !in r.local.documents && pending.id !in r.local.lexical && pending.id !in r.local.vectors
  {
    var m, r := Mutation(Named(cx, d), false), AfterPut(cx, e, d, media);
    var image := Fold(map[], Committed(e.world));
    PutCurrentIff(cx, e, d, media);
    TrimTwice(cx, d.id);
    LoggedWorld(cx, e.world, m);
    PlacedAgrees(cx, image, e.local, Page(m.document, MediaOf(cx, media)));
    hide Sound, ValidContext, CanPlace, CanAppend, Logged, Placed, Fold;
    SoundBounds(cx, r.world);
    CommittedImage(e.world, r.world, m);
    FoldOne(image, Mutation(pending, false));
    NothingShowsIff(image, Tail(e.world), m);
    assert pending.id in Apply(Fold(image, Tail(e.world)), m) && pending.id !in Apply(image, m);
  }

  lemma FoldOne(image: Image, m: Mutation)
    ensures Fold(image, [m]) == Apply(image, m)
  {
    FoldSnoc(image, [], m);
    FoldNothing(image);
    assert [] + [m] == [m];
  }

  /** It happens: a new engine whose first upsert is interrupted after its append, and then serves another one. */
  lemma InterruptionIsMissed(cx: Context, a: Document, b: Document, media: Str)
    requires ValidContext(cx) && CanPlace(cx, Named(cx, a)) && CanPlace(cx, Named(cx, b)) &&
      cx.trim(a.id) != cx.trim(b.id)
    requires Fits(Mutation(Named(cx, a), false)) && Fits(Mutation(Named(cx, b), false))
    ensures var cut := ChangeEnd(cx, FRESH, Mutation(Named(cx, a), false));
      var calls := [Interrupted(a, false, cut), Put(b, media)];
      var r := Run(cx, calls);
      && AllPlaceable(cx, calls) && !Current(cx, r) && Bounds(r.world)
      && cx.trim(a.id) in Fold(map[], Committed(r.world)) && cx.trim(a.id) !in r.local.documents
  {
    hide ValidContext, VectorOf, Sound, Current, Settled, Run, After, ChangeEnd, InterruptedLog, Fold, Committed;
    var m := Mutation(Named(cx, a), false);
    var first := Interrupted(a, false, ChangeEnd(cx, FRESH, m));
    TrimTwice(cx, a.id);
    TrimTwice(cx, b.id);
    NewFacts(cx, m);
    var e := After(cx, NEW, first);
    TailOfOne(cx, NEW, a, m);
    RunOfTwo(cx, [first, Put(b, media)]);
    AcceptedLater(cx, e, b);
    PendingUpsertIsMissed(cx, e, m.document, b, media);
    assert After(cx, e, Put(b, media)) == AfterPut(cx, e, b, media) by { AfterPutIs(cx, e, b, media); }
  }

  lemma AfterPutIs(cx: Context, e: Engine, d: Document, media: Str)
    ensures After(cx, e, Put(d, media)) == AfterPut(cx, e, d, media)
  {
  }

  lemma AcceptedLater(cx: Context, e: Engine, d: Document)
    requires ValidContext(cx) && e.world.log.last == 1 && Fits(Mutation(Named(cx, d), false)) && cx.trim(d.id) != []
    ensures Accepts(cx, e, Mutation(Named(cx, d), false))
  {
    TrimTwice(cx, d.id);
  }

  /** An engine over a log that holds nothing yet. */
  ghost predicate Blank(cx: Context, e: Engine) {
    && Sound(cx, e.world) && Current(cx, e) && Settled(cx, e.world)
    && e.world.history == [] && e.world.log.last == 0 && e.world.log.committed == 0
  }

  lemma NewFacts(cx: Context, m: Mutation)
    requires ValidContext(cx) && Fits(m) && cx.trim(m.document.id) == m.document.id != []
    ensures Blank(cx, NEW) && Accepts(cx, NEW, m) && NEW.world == FRESH
  {
    NewIsCurrent(cx);
    FreshSettled(cx);
    hide Sound, Current, Settled;
  }

  lemma TailOfOne(cx: Context, e: Engine, a: Document, m: Mutation)
    requires ValidContext(cx) && m == Mutation(Named(cx, a), false) && CanPlace(cx, m.document)
    requires Blank(cx, e) && Accepts(cx, e, m)
    ensures var r := After(cx, e, Interrupted(a, false, ChangeEnd(cx, e.world, m)));
      Sound(cx, r.world) && Current(cx, r) && Tail(r.world) == [m] && r.local.lexical == map[] && r.world.log.last == 1
  {
    TrimTwice(cx, a.id);
    hide ValidContext, VectorOf, Sound, Current, Settled, ChangeEnd, CommitEnd, InterruptedLog, CanAppend, Recovered;
    var cut := ChangeEnd(cx, e.world, m);
    var call := Interrupted(a, false, cut);
    InterruptedStep(cx, e, call);
    ChangeBeforeCommit(cx, e.world, m);
    InterruptedLeaves(cx, e.world, m, cut);
    assert e.world.history + [m] == [m];
    InterruptedBounds(cx, e, m, cut);
    OneInTail(cx, After(cx, e, call), m);
  }

  /** Opening does not sync a file that ends in a whole record. So a first upsert interrupted after its whole commit
      record is served by the engine that opens next, and a second crash can take it back. */
  lemma UnsyncedCommitIsTakenBack(cx: Context, a: Document)
    requires ValidContext(cx) && CanPlace(cx, Named(cx, a)) && Fits(Mutation(Named(cx, a), false))
    ensures var m := Mutation(Named(cx, a), false);
      var e := AfterInterrupted(cx, NEW, m, CommitEnd(cx, FRESH, m));
      && Sound(cx, e.world) && Current(cx, e) && !Settled(cx, e.world)
      && e.offset == 1 && AfterReopen(cx, e, e.world.log.synced).offset == 0
  {
    hide ValidContext, VectorOf, Sound, Current, Secured, CommitEnd, InterruptedLog, CanAppend, Recovered, AfterReopen;
    var m := Mutation(Named(cx, a), false);
    TrimTwice(cx, a.id);
    NewFacts(cx, m);
    CommitOfOne(cx, NEW, a, m);
    UnsettledCanLose(cx, AfterInterrupted(cx, NEW, m, CommitEnd(cx, FRESH, m)));
  }

  lemma CommitOfOne(cx: Context, e: Engine, a: Document, m: Mutation)
    requires ValidContext(cx) && m == Mutation(Named(cx, a), false) && CanPlace(cx, m.document)
    requires Blank(cx, e) && Accepts(cx, e, m)
    ensures var r := AfterInterrupted(cx, e, m, CommitEnd(cx, e.world, m));
      && Sound(cx, r.world) && Current(cx, r) && r.offset == 1
      && r.world.durable <= |r.world.records| && Secured(LogCodec(cx), r.world) == 0 && r.world.log.committed == 1
  {
    TrimTwice(cx, a.id);
    hide ValidContext, VectorOf, Sound, Settled, ChangeEnd, CommitEnd, InterruptedLog, CanAppend, Recovered, Agrees,
      Fold;
    var cut := CommitEnd(cx, e.world, m);
    InterruptedIsCurrent(cx, e, m, cut);
    ChangeBeforeCommit(cx, e.world, m);
    InterruptedLeaves(cx, e.world, m, cut);
    InterruptedBounds(cx, e, m, cut);
    NothingCut(cx, e.world, m);
  }

  /** A crash that cuts nothing syncs nothing. */
  lemma NothingCut(cx: Context, w: World, m: Mutation)
    requires ValidContext(cx) && Sound(cx, w) && Clean(cx, m)
    requires CanAppend(LogCodec(cx), w.log, m) && (m.deleted ==> m.document.title == [] && m.document.body == [])
    ensures var t := InterruptedLog(cx, w, m, CommitEnd(cx, w, m));
      w.durable <= |w.records| && t.durable <= |t.records| && Secured(LogCodec(cx), t) == Secured(LogCodec(cx), w)
  {
    hide ValidContext, CanAppend, Clean, AllClean, Intact, Crashed, CommitWritten, Secured, ChangeEnd, CommitEnd,
      InterruptedLog;
    var c := LogCodec(cx);
    var u := Next(c, w, Append(m));
    var v := CommitWritten(c, u, w.log.last + 1);
    ContextCodec(cx);
    WritingHolds(cx, w, m, CommitEnd(cx, w, m));
    SecuredSame(cx, w, m);
    WrittenKeepsIntact(c, u, w.log.last + 1);
    DurableWithin(c, w);
    hide Next;
    WholeFileStays(c, v);
  }

  lemma InterruptedBounds(cx: Context, e: Engine, m: Mutation, cut: nat)
    requires ValidContext(cx) && Sound(cx, e.world) && Clean(cx, m) && Accepts(cx, e, m) && !m.deleted
    ensures AfterInterrupted(cx, e, m, cut).world == InterruptedLog(cx, e.world, m, cut)
    ensures AfterInterrupted(cx, e, m, cut).world.log.base == e.world.log.base
  {
    hide ValidContext, CanAppend, Clean, AllClean, Intact, Crashed, CommitWritten, Secured, Next, ChangeEnd,
      CommitEnd, InterruptedLog;
    ContextCodec(cx);
    WritingHolds(cx, e.world, m, cut);
    var c := LogCodec(cx);
    var v := CommitWritten(c, Next(c, e.world, Append(m)), e.world.log.last + 1);
    CrashKeepsIntact(c, v, cut);
    IntactBounds(cx, Crashed(c, v, cut));
  }

  lemma RunOfTwo(cx: Context, calls: seq<Call>)
    requires |calls| == 2
    ensures Run(cx, calls) == After(cx, After(cx, NEW, calls[0]), calls[1])
  {
    hide After;
    assert calls[..1][..0] == [];
    assert Run(cx, []) == NEW;
    assert Run(cx, calls[..1]) == After(cx, NEW, calls[0]);
  }

  lemma OneInTail(cx: Context, e: Engine, m: Mutation)
    requires Current(cx, e) && e.world.history == [m] && e.world.log.committed == 0 && e.world.log.last == 1
    ensures Tail(e.world) == [m] && e.local.lexical == map[]
  {
    assert Committed(e.world) == [];
    FoldNothing(map[]);
  }
}
