/** The collection engine as an object over its log and its two indexes. */
module Engines {

  import opened Bytes
  import opened Documents
  import opened Wrappers
  import opened Vectors
  import opened HnswBuild
  import opened VectorIndexes
  import opened SearchIndex
  import SearchObjects
  import WalCodec
  import opened Wal
  import WalLogs
  import opened EngineModel

  function Mutations(entries: seq<WalCodec.Entry>): (r: seq<Mutation>)
    ensures |r| == |entries| && forall i :: 0 <= i < |r| ==> r[i] == entries[i].mutation
  {
    seq(|entries|, i requires 0 <= i < |entries| => entries[i].mutation)
  }

  predicate Appliable(cx: Context, m: Mutation) { m.deleted || CanPlace(cx, m.document) }

  class CollectionEngine {
    const cx: Context
    const log: WalLogs.Log
    const lexical: SearchObjects.Index
    const vectors: HnswIndex
    var documents: map<Str, Page>
    var offset: nat
    ghost var world: World

    ghost predicate Valid()
      reads this, log, lexical, vectors, vectors.graph
    {
      && ValidContext(cx) && log.codec == LogCodec(cx) && log.cursor <= |log.file| && world.log == log.State()
      && lexical.t == Lexicon(cx) && lexical.Valid()
      && vectors.space == VectorSpace(cx) && vectors.options == cx.options && vectors.Valid()
    }

    ghost function LocalState(): Local
      reads this, lexical, vectors
    {
      Local(documents, lexical.documents, vectors.vectors)
    }

    ghost function Value(): Engine
      reads this, lexical, vectors
    {
      Engine(world, LocalState(), offset)
    }

    /** An engine with nothing applied yet, over a log that opens. */
    constructor (cx: Context, stored: seq<Byte>, ghost synced: nat, ghost world: World)
      requires ValidContext(cx) && Opened(LogCodec(cx), stored, synced).Ok? &&
        world.log == Opened(LogCodec(cx), stored, synced).value
      ensures Valid() && this.cx == cx && this.world == world && Value() == Engine(world, NOTHING, 0)
      ensures fresh(log) && fresh(lexical) && fresh(vectors) && fresh(vectors.graph)
    {
      hide Opened, ValidContext, Belongs, GraphOf, Storable, TrimStable, ValidOptions;
      ContextServes(cx);
      OpenedCursor(cx, stored, synced);
      this.cx := cx;
      log := new WalLogs.Log(LogCodec(cx), stored, synced);
      lexical := new SearchObjects.Index(Lexicon(cx));
      vectors := new HnswIndex(VectorSpace(cx), cx.options);
      documents, offset := map[], 0;
      this.world := world;
    }

    /** Opens a log and applies what it has committed, or fails when the log or one of its documents is refused. */
    static method Open(cx: Context, stored: seq<Byte>, ghost synced: nat, ghost world: World)
        returns (e: CollectionEngine?)
      requires ValidContext(cx)
      requires Opened(LogCodec(cx), stored, synced).Ok? ==> world.log == Opened(LogCodec(cx), stored, synced).value
      ensures e != null ==> fresh(e) && e.Valid() && e.cx == cx && e.world == world
      ensures e != null <==>
        && Opened(LogCodec(cx), stored, synced).Ok? && ReplayOf(LogCodec(cx), world.log.file).Ok?
        && forall m :: m in Mutations(ReplayOf(LogCodec(cx), world.log.file).value) ==> Appliable(cx, m)
      ensures e != null ==>
        var entries := ReplayOf(LogCodec(cx), world.log.file).value;
        e.Value() == Engine(world, AppliedAll(cx, NOTHING, Mutations(entries)), if entries == [] then 0
          else entries[|entries| - 1].sequence)
    {
      hide Opened, ReplayOf, AppliedAll, Appliable, ValidContext, Belongs, GraphOf, Storable, TrimStable, ValidOptions;
      OpensIff(cx, stored, synced);
      var scanned, _ := WalLogs.ScanFile(LogCodec(cx), if stored == [] then WalCodec.Header(0) else stored);
      if scanned.Err? { return null; }
      var engine := new CollectionEngine(cx, stored, synced, world);
      OpenedCursor(cx, stored, synced);
      var replayed := engine.log.ReplayCommitted();
      if replayed.Err? { return null; }
      ReplayEnds(cx, engine.log.file);
      var ok := engine.ApplyAll(replayed.value);
      if !ok { return null; }
      return engine;
    }

    /** Applies replayed mutations one by one and stops at the first that fails. */
    method ApplyAll(entries: seq<WalCodec.Entry>) returns (ok: bool)
      requires Valid() && LocalState() == NOTHING && offset == 0
      modifies this`documents, this`offset, lexical, vectors
      ensures Valid()
      ensures ok <==> forall m :: m in Mutations(entries) ==> Appliable(cx, m)
      ensures ok ==> LocalState() == AppliedAll(cx, NOTHING, Mutations(entries))
      ensures ok ==> offset == if entries == [] then 0 else entries[|entries| - 1].sequence
    {
      hide AppliedAll, Applied, Appliable, ValidContext, Belongs, GraphOf, Storable, TrimStable, ValidOptions;
      ghost var ms := Mutations(entries);
      NothingApplied(cx, ms);
      for i := 0 to |entries|
        invariant Valid() && (vectors.graph == old(vectors.graph) || fresh(vectors.graph))
        invariant LocalState() == AppliedAll(cx, NOTHING, ms[..i])
        invariant offset == if i == 0 then 0 else entries[i - 1].sequence
        invariant forall j :: 0 <= j < i ==> Appliable(cx, ms[j])
      {
        ApplyNext(cx, ms, i);
        ok := Apply(entries[i].mutation);
        if !ok {
          assert ms[i] in ms;
          return false;
        }
        offset := entries[i].sequence;
      }
      assert ms[..|ms|] == ms;
      return true;
    }

    /** Embeds a document, then puts it in the lexical index, the vector index and the documents, in that order. */
    method Place(p: Page) returns (ok: bool)
      requires Valid()
      modifies this`documents, lexical, vectors
      ensures Valid() && (vectors.graph == old(vectors.graph) || fresh(vectors.graph))
      ensures LocalState() == Placed(cx, old(LocalState()), p) && ok == CanPlace(cx, p.document)
    {
      hide ValidContext, Belongs, GraphOf, Storable;
      var embedded := cx.embed(Contents(p.document));
      if embedded.None? { return false; }
      var indexed := lexical.Upsert(p.document);
      if indexed.Failure? { return false; }
      var stored := vectors.Upsert(p.document.id, embedded.value);
      if stored.Some? { return false; }
      documents := documents[p.document.id := p];
      return true;
    }

    method Drop(id: Str)
      requires Valid()
      modifies this`documents, lexical, vectors
      ensures Valid() && (vectors.graph == old(vectors.graph) || fresh(vectors.graph))
      ensures LocalState() == Removed(cx, old(LocalState()), id)
    {
      hide ValidContext, Belongs, GraphOf, Storable;
      var _ := lexical.Delete(id);
      var _ := vectors.Delete(id);
      documents := documents - {id};
    }

    /** Applies a replayed mutation. */
    method Apply(m: Mutation) returns (ok: bool)
      requires Valid()
      modifies this`documents, lexical, vectors
      ensures Valid() && (vectors.graph == old(vectors.graph) || fresh(vectors.graph))
      ensures LocalState() == Applied(cx, old(LocalState()), m) && ok == Appliable(cx, m)
    {
      hide Placed, Removed, CanPlace;
      if m.deleted {
        Drop(m.document.id);
        return true;
      }
      ok := Place(Page(m.document, DEFAULT_MEDIA));
    }

    /** Appends and commits one mutation. */
    method Record(m: Mutation) returns (sequence: nat)
      requires Valid()
      modifies log, this`world
      ensures log.cursor <= |log.file| && world.log == log.State()
      ensures sequence == if CanAppend(LogCodec(cx), old(world).log, m) then old(world).log.last + 1 else 0
      ensures world == if sequence == 0 then old(world) else Logged(cx, old(world), m)
    {
      hide ValidContext, CanAppend, Belongs, GraphOf, Storable, AfterAppend, AfterCommit, Logged, CanCommit;
      AppendCursor(cx, world.log, m);
      if CanAppend(LogCodec(cx), world.log, m) { LoggedLog(cx, world, m); }
      sequence := log.Append(m);
      if sequence == 0 { return; }
      CommitCursor(cx, log.State(), sequence);
      var ok := log.CommitThrough(sequence);
      world := Logged(cx, world, m);
    }

    /** Durably adds or replaces a document. */
    method Upsert(d: Document, media: Str) returns (sequence: Option<nat>)
      requires Valid()
      modifies this, log, lexical, vectors
      ensures Valid() && (vectors.graph == old(vectors.graph) || fresh(vectors.graph))
      ensures Value() == AfterPut(cx, old(Value()), d, media)
      ensures var m := Mutation(Named(cx, d), false);
        sequence == if Accepts(cx, old(Value()), m) &&
          CanPlace(cx, m.document) then Some(old(world).log.last + 1) else None
    {
      hide ValidContext, CanAppend, Logged, Placed, CanPlace, Belongs, GraphOf;
      var m := Mutation(Named(cx, d), false);
      if m.document.id == [] {
        TrimTwice(cx, d.id);
        return None;
      }
      TrimTwice(cx, d.id);
      var number := Record(m);
      if number == 0 { return None; }
      var ok := Place(Page(m.document, MediaOf(cx, media)));
      if !ok { return None; }
      offset := number;
      return Some(number);
    }

    /** Durably removes a document. */
    method Delete(id: Str) returns (sequence: Option<nat>)
      requires Valid()
      modifies this, log, lexical, vectors
      ensures Valid() && (vectors.graph == old(vectors.graph) || fresh(vectors.graph))
      ensures Value() == AfterRemove(cx, old(Value()), id)
      ensures sequence == if Accepts(cx, old(Value()), Tombstone(cx, id)) then Some(old(world).log.last + 1) else None
    {
      hide ValidContext, CanAppend, Logged, Removed, Belongs, GraphOf;
      var m := Tombstone(cx, id);
      if m.document.id == [] {
        TrimTwice(cx, id);
        return None;
      }
      TrimTwice(cx, id);
      var number := Record(m);
      if number == 0 { return None; }
      Drop(m.document.id);
      offset := number;
      return Some(number);
    }
  }

  lemma ContextServes(cx: Context)
    requires ValidContext(cx)
    ensures TrimStable(VectorSpace(cx)) && ValidOptions(cx.options)
  {
    forall s ensures VectorSpace(cx).trim(VectorSpace(cx).trim(s)) == VectorSpace(cx).trim(s) {
      TrimTwice(cx, s);
    }
  }

  lemma OpensIff(cx: Context, stored: seq<Byte>, synced: nat)
    ensures Opened(LogCodec(cx), stored, synced).Ok? <==>
      WalCodec.ScanLog(LogCodec(cx), if stored == [] then WalCodec.Header(0) else stored).Ok?
  {
  }

  lemma OpenedCursor(cx: Context, stored: seq<Byte>, synced: nat)
    requires Opened(LogCodec(cx), stored, synced).Ok?
    ensures Opened(LogCodec(cx), stored, synced).value.cursor == |Opened(LogCodec(cx), stored, synced).value.file|
  {
  }

  lemma AppendCursor(cx: Context, l: LogState, m: Mutation)
    requires l.cursor <= |l.file|
    ensures var r := AfterAppend(LogCodec(cx), l, m); r.cursor <= |r.file|
    ensures !CanAppend(LogCodec(cx), l, m) ==> AfterAppend(LogCodec(cx), l, m) == l
  {
    hide CanAppend, Kept;
  }

  lemma LoggedLog(cx: Context, w: World, m: Mutation)
    requires CanAppend(LogCodec(cx), w.log, m)
    ensures Logged(cx, w, m).log == AfterCommit(LogCodec(cx), AfterAppend(LogCodec(cx), w.log, m), w.log.last + 1)
  {
    hide CanAppend, AppendRecord, Kept, WriteAt, WalCodec.RecordBytes;
  }

  lemma CommitCursor(cx: Context, l: LogState, sequence: nat)
    requires l.cursor <= |l.file|
    ensures var r := AfterCommit(LogCodec(cx), l, sequence); r.cursor <= |r.file|
  {
  }

  lemma ReplayEnds(cx: Context, file: seq<Byte>)
    requires ReplayOf(LogCodec(cx), file).Ok?
    ensures WalCodec.CursorAfterScan(LogCodec(cx), file) == |file|
  {
    WalCodec.SuccessfulScanEnds(LogCodec(cx), file);
  }

  lemma NothingApplied(cx: Context, ms: seq<Mutation>)
    ensures AppliedAll(cx, NOTHING, ms[..0]) == NOTHING
  {
  }

  lemma ApplyNext(cx: Context, ms: seq<Mutation>, i: nat)
    requires i < |ms|
    ensures AppliedAll(cx, NOTHING, ms[..i + 1]) == Applied(cx, AppliedAll(cx, NOTHING, ms[..i]), ms[i])
  {
    hide Applied;
    assert ms[..i + 1][..i] == ms[..i];
  }

  /** On a sound log, opening succeeds and gives the engine that reopening stands for. */
  lemma SoundLogOpens(cx: Context, w: World)
    requires ValidContext(cx) && Sound(cx, w)
    ensures Bounds(w)
    ensures ReplayOf(LogCodec(cx), w.log.file).Ok?
    ensures Mutations(ReplayOf(LogCodec(cx), w.log.file).value) == Committed(w)
    ensures forall m :: m in Committed(w) ==> Appliable(cx, m)
  {
    SoundBounds(cx, w);
    ReplayIsCommittedHistory(LogCodec(cx), w);
    hide Intact, ReplayOf;
    forall m | m in Committed(w) ensures Appliable(cx, m) {
      var i :| 0 <= i < |Committed(w)| && Committed(w)[i] == m;
      assert Clean(cx, w.history[w.log.base + i]);
    }
  }

  /** An accepted document that cannot be embedded or held is committed for good: until a checkpoint discards it, no
      later state of the log can be opened. */
  lemma UnplaceableStopsOpening(cx: Context, w: World, m: Mutation, steps: seq<Step>)
    requires ValidContext(cx) && Intact(LogCodec(cx), w) && CanAppend(LogCodec(cx), w.log, m)
    requires !m.deleted && cx.trim(m.document.id) == m.document.id && !CanPlace(cx, m.document)
    ensures var t := Exec(LogCodec(cx), Logged(cx, w, m), steps);
      && ReplayOf(LogCodec(cx), t.log.file).Ok?
      && (t.log.base <= w.log.last ==>
           exists x :: x in Mutations(ReplayOf(LogCodec(cx), t.log.file).value) && !Appliable(cx, x))
  {
    hide Intact, CanAppend, CanCommit, Exec, ReplayOf, Next, CanPlace, ValidContext, EntriesOf;
    var c, sequence := LogCodec(cx), w.log.last + 1;
    var u := Next(c, w, Append(m));
    ContextCodec(cx);
    KeptIsSame(cx, m);
    AppendKeepsIntact(c, w, m);
    AppendedHistory(cx, w, m);
    ReplayAfterAnyRun(c, u, sequence, steps, w.log.last);
    var t := Exec(c, Logged(cx, w, m), steps);
    if t.log.base <= w.log.last {
      var entries := ReplayOf(c, t.log.file).value;
      var i :| 0 <= i < |entries| && entries[i] == WalCodec.Entry(sequence, m);
      assert Mutations(entries)[i] == m;
      assert m in Mutations(entries) && !Appliable(cx, m);
    }
  }

  lemma AppendedHistory(cx: Context, w: World, m: Mutation)
    requires CanAppend(LogCodec(cx), w.log, m) && Intact(LogCodec(cx), w)
    ensures var u := Next(LogCodec(cx), w, Append(m));
      && CanCommit(u.log, w.log.last + 1) && |u.history| == w.log.last + 1
      && u.history[w.log.last] == Kept(LogCodec(cx), m)
  {
    hide CanAppend, Kept, WriteAt, Represents, Durable, WalCodec.RecordBytes;
  }
}
