/** The collection engine: documents, a lexical and a vector index, all derived from the committed log. */
module EngineModel {

  import opened Bytes
  import opened Documents
  import opened Wrappers
  import opened Vectors
  import opened HnswBuild
  import opened VectorIndexes
  import opened SearchIndex
  import opened WalCodec
  import opened Wal

  /** Everything the engine is given from outside. One trim serves the log and both indexes. */
  datatype Context = Context(
    trim: Str -> Str,
    checksum: seq<Byte> -> nat,
    normalize: Vec -> Option<Vec>,
    cosine: (Vec, Vec) -> real,
    level: Str -> nat,
    tokenize: Str -> seq<Str>,
    log: real -> real,
    embed: Str -> Option<Vec>,
    options: Options)

  function LogCodec(cx: Context): Codec { Codec(cx.checksum, cx.trim) }
  function VectorSpace(cx: Context): Space { Space(cx.trim, cx.normalize, cx.cosine, cx.level) }
  function Lexicon(cx: Context): Text { Text(cx.tokenize, cx.trim, cx.log) }

  ghost predicate ValidContext(cx: Context) {
    ValidCodec(LogCodec(cx)) && ValidOptions(cx.options)
  }

  /** A stored document and its media type, which the log does not keep. */
  datatype Page = Page(document: Document, media: Str)

  /** What the engine derives from the log. */
  datatype Local = Local(documents: map<Str, Page>, lexical: Image, vectors: Table)

  const NOTHING: Local := Local(map[], map[], map[])

  /** `text/plain; charset=utf-8`. */
  const DEFAULT_MEDIA: Str := [116, 101, 120, 116, 47, 112, 108, 97, 105, 110, 59, 32, 99, 104, 97, 114, 115, 101,
    116, 61, 117, 116, 102, 45, 56]

  // ---------------------------------------------------------------------------
  // Applying mutations

  function Contents(d: Document): Str { d.title + [10] + d.body }

  /** The vector a document is found by, if its text embeds into one the index can hold. */
  function VectorOf(cx: Context, d: Document): Option<Vec> {
    var v := cx.embed(Contents(d));
    if v.None? || cx.normalize(v.value).None? || cx.normalize(cx.normalize(v.value).value).None? then None
    else cx.normalize(v.value)
  }

  /** Embeds, indexes and stores a document, stopping at the first of these that fails. */
  function Placed(cx: Context, s: Local, p: Page): Local {
    var id := cx.trim(p.document.id);
    if cx.embed(Contents(p.document)).None? || id == [] then s
    else
      var lexical := s.lexical[id := p.document.(id := id)];
      if VectorOf(cx, p.document).None? then s.(lexical := lexical)
      else Local(s.documents[p.document.id := p], lexical, s.vectors[id := VectorOf(cx, p.document).value])
  }

  function Removed(cx: Context, s: Local, id: Str): Local {
    Local(s.documents - {id}, s.lexical - {cx.trim(id)}, s.vectors - {cx.trim(id)})
  }

  predicate CanPlace(cx: Context, d: Document) { cx.trim(d.id) != [] && VectorOf(cx, d).Some? }

  function Applied(cx: Context, s: Local, m: Mutation): Local {
    if m.deleted then Removed(cx, s, m.document.id) else Placed(cx, s, Page(m.document, DEFAULT_MEDIA))
  }

  function AppliedAll(cx: Context, s: Local, ms: seq<Mutation>): Local {
    if ms == [] then s else Applied(cx, AppliedAll(cx, s, ms[..|ms| - 1]), ms[|ms| - 1])
  }

  /** A mutation as this engine logs it, whose document can be applied. */
  predicate Clean(cx: Context, m: Mutation) {
    cx.trim(m.document.id) == m.document.id != [] && (m.deleted || CanPlace(cx, m.document))
  }

  ghost predicate AllClean(cx: Context, ms: seq<Mutation>) {
    forall i :: 0 <= i < |ms| ==> Clean(cx, ms[i])
  }

  /** The documents and both indexes hold exactly this image. */
  ghost predicate Agrees(cx: Context, image: Image, s: Local) {
    && s.lexical == image && s.documents.Keys == image.Keys && s.vectors.Keys == image.Keys
    && (forall id :: id in image ==> s.documents[id].document == image[id])
    && (forall id :: id in image ==> VectorOf(cx, image[id]) == Some(s.vectors[id]))
  }

  lemma AppliedAgrees(cx: Context, image: Image, s: Local, m: Mutation)
    requires Agrees(cx, image, s) && Clean(cx, m)
    ensures Agrees(cx, Apply(image, m), Applied(cx, s, m))
  {
    hide VectorOf;
    VectorNeedsEmbedding(cx, m.document);
  }

  lemma PlacedAgrees(cx: Context, image: Image, s: Local, p: Page)
    requires Agrees(cx, image, s) && Clean(cx, Mutation(p.document, false))
    ensures Agrees(cx, image[p.document.id := p.document], Placed(cx, s, p))
  {
    hide VectorOf;
    VectorNeedsEmbedding(cx, p.document);
  }

  lemma VectorNeedsEmbedding(cx: Context, d: Document)
    ensures VectorOf(cx, d).Some? ==> cx.embed(Contents(d)).Some?
  {
  }

  /** Replaying clean mutations keeps documents and indexes together. */
  lemma {:induction false} AppliedAllAgrees(cx: Context, image: Image, s: Local, ms: seq<Mutation>)
    requires Agrees(cx, image, s) && AllClean(cx, ms)
    ensures Agrees(cx, Fold(image, ms), AppliedAll(cx, s, ms))
  {
    hide Agrees, Clean, Applied, Apply;
    if ms != [] {
      AppliedAllAgrees(cx, image, s, ms[..|ms| - 1]);
      AppliedAgrees(cx, Fold(image, ms[..|ms| - 1]), AppliedAll(cx, s, ms[..|ms| - 1]), ms[|ms| - 1]);
    }
  }

  /** The image decides everything but the media types. */
  lemma SameImageSameState(cx: Context, image: Image, a: Local, b: Local)
    requires Agrees(cx, image, a) && Agrees(cx, image, b)
    ensures a.lexical == b.lexical && a.vectors == b.vectors && a.documents.Keys == b.documents.Keys
    ensures forall id :: id in a.documents ==> a.documents[id].document == b.documents[id].document
  {
    hide VectorOf;
    forall id | id in image ensures a.vectors[id] == b.vectors[id] {
      assert Some(a.vectors[id]) == Some(b.vectors[id]);
    }
  }

  // ---------------------------------------------------------------------------
  // The engine over its log

  datatype Engine = Engine(world: World, local: Local, offset: nat)

  const NEW: Engine := Engine(FRESH, NOTHING, 0)

  ghost predicate Bounds(w: World) { w.log.base <= w.log.committed <= w.log.last == |w.history| }

  /** The mutations that replaying the log applies. */
  ghost function Committed(w: World): seq<Mutation>
    requires Bounds(w)
  {
    w.history[w.log.base..w.log.committed]
  }

  function MediaOf(cx: Context, media: Str): Str { if cx.trim(media) == [] then DEFAULT_MEDIA else cx.trim(media) }

  /** A mutation appended and committed at once. */
  function Logged(cx: Context, w: World, m: Mutation): World {
    Next(LogCodec(cx), Next(LogCodec(cx), w, Append(m)), CommitTo(w.log.last + 1))
  }

  function Named(cx: Context, d: Document): Document { d.(id := cx.trim(d.id)) }

  predicate Accepts(cx: Context, e: Engine, m: Mutation) {
    cx.trim(m.document.id) != [] && CanAppend(LogCodec(cx), e.world.log, m)
  }

  function AfterPut(cx: Context, e: Engine, d: Document, media: Str): Engine {
    var m := Mutation(Named(cx, d), false);
    if !Accepts(cx, e, m) then e
    else Engine(Logged(cx, e.world, m), Placed(cx, e.local, Page(m.document, MediaOf(cx, media))),
                if CanPlace(cx, m.document) then e.world.log.last + 1 else e.offset)
  }

  function Tombstone(cx: Context, id: Str): Mutation { Mutation(Document(cx.trim(id), [], []), true) }

  function AfterRemove(cx: Context, e: Engine, id: Str): Engine {
    var m := Tombstone(cx, id);
    if !Accepts(cx, e, m) then e
    else Engine(Logged(cx, e.world, m), Removed(cx, e.local, m.document.id), e.world.log.last + 1)
  }

  /** The engine that opening a log gives: its committed mutations applied to empty indexes. */
  ghost function Recovered(cx: Context, w: World): Engine
    requires Bounds(w)
  {
    Engine(w, AppliedAll(cx, NOTHING, Committed(w)), if w.log.base < w.log.committed then w.log.committed else 0)
  }

  /** The log after a crash that leaves `cut` bytes of its file. */
  function CrashedLog(cx: Context, w: World, cut: nat): World { Next(LogCodec(cx), w, Crash(cut)) }

  ghost function AfterReopen(cx: Context, e: Engine, cut: nat): Engine {
    var w := CrashedLog(cx, e.world, cut);
    if Bounds(w) then Recovered(cx, w) else e
  }

  /** The log after a crash between the append of a mutation and the sync of its commit, with `cut` bytes left. */
  function InterruptedLog(cx: Context, w: World, m: Mutation, cut: nat): World {
    Next(LogCodec(cx), Next(LogCodec(cx), w, Append(m)), CrashInCommit(w.log.last + 1, cut))
  }

  /** An upsert or delete that a crash interrupts before it returns, and the engine opened again. */
  ghost function AfterInterrupted(cx: Context, e: Engine, m: Mutation, cut: nat): Engine {
    var w := InterruptedLog(cx, e.world, m, cut);
    if Accepts(cx, e, m) && Bounds(w) then Recovered(cx, w) else e
  }

  // ---------------------------------------------------------------------------
  // Invariants

  /** The log is intact and holds only what this engine logs. */
  ghost predicate Sound(cx: Context, w: World) {
    Intact(LogCodec(cx), w) && AllClean(cx, w.history)
  }

  /** The engine's state is the fold of what is committed. */
  ghost predicate Current(cx: Context, e: Engine) {
    && Bounds(e.world) && Agrees(cx, Fold(map[], Committed(e.world)), e.local)
    && e.offset == if e.world.log.base < e.world.log.committed then e.world.log.committed else 0
  }

  ghost predicate NoTail(w: World) { w.log.last == w.log.committed }

  lemma ContextCodec(cx: Context)
    requires ValidContext(cx)
    ensures ValidCodec(LogCodec(cx))
  {
  }

  lemma SoundBounds(cx: Context, w: World)
    requires Sound(cx, w)
    ensures Bounds(w)
  {
    hide Represents, Durable;
  }

  lemma KeptIsSame(cx: Context, m: Mutation)
    requires cx.trim(m.document.id) == m.document.id && (m.deleted ==> m.document.title == [] && m.document.body == [])
    ensures Kept(LogCodec(cx), m) == m
  {
  }

  /** Logging a mutation appends it to the history and commits everything before it too. */
  lemma LoggedWorld(cx: Context, w: World, m: Mutation)
    requires ValidContext(cx) && Sound(cx, w) && Clean(cx, m) && CanAppend(LogCodec(cx), w.log, m)
    requires m.deleted ==> m.document.title == [] && m.document.body == []
    ensures var t := Logged(cx, w, m);
      && Sound(cx, t) && NoTail(t) && t.log.base == w.log.base && t.log.last == w.log.last + 1
      && t.history == w.history + [m]
  {
    hide Intact, Logged, CanAppend, CanPlace, ValidContext;
    SoundBounds(cx, w);
    KeptIsSame(cx, m);
    LoggedIntact(cx, w, m);
    LoggedShape(cx, w, m);
  }

  lemma LoggedIntact(cx: Context, w: World, m: Mutation)
    requires ValidContext(cx) && Intact(LogCodec(cx), w)
    ensures Intact(LogCodec(cx), Logged(cx, w, m))
  {
    hide Intact, Next;
    var c := LogCodec(cx);
    StepKeeps(c, w, Append(m));
    StepKeeps(c, Next(c, w, Append(m)), CommitTo(w.log.last + 1));
  }

  lemma LoggedShape(cx: Context, w: World, m: Mutation)
    requires Bounds(w) && CanAppend(LogCodec(cx), w.log, m)
    ensures var t := Logged(cx, w, m);
      && t.log.base == w.log.base && t.log.last == t.log.committed == w.log.last + 1
      && t.history == w.history + [Kept(LogCodec(cx), m)]
  {
    hide CanAppend, Kept, WriteAt, RecordBytes;
  }

  lemma CommittedAll(w: World, t: World, m: Mutation)
    requires Bounds(w) && Bounds(t) && NoTail(t) && t.log.base == w.log.base && t.history == w.history + [m]
    ensures Committed(t) == Committed(w) + w.history[w.log.committed..] + [m]
  {
  }

  /** What committing `m` makes of the image: the earlier mutations that were only appended take effect as well. */
  lemma CommittedImage(w: World, t: World, m: Mutation)
    requires Bounds(w) && Bounds(t) && NoTail(t) && t.log.base == w.log.base && t.history == w.history + [m]
    ensures Fold(map[], Committed(t)) == Apply(Fold(Fold(map[], Committed(w)), w.history[w.log.committed..]), m)
  {
    CommittedAll(w, t, m);
    FoldAppend(map[], Committed(w), w.history[w.log.committed..]);
    FoldSnoc(map[], Committed(w) + w.history[w.log.committed..], m);
  }

  lemma NoTailNothingPending(w: World)
    requires Bounds(w) && NoTail(w)
    ensures w.history[w.log.committed..] == []
  {
  }

  lemma TrimTwice(cx: Context, id: Str)
    requires ValidContext(cx)
    ensures cx.trim(cx.trim(id)) == cx.trim(id)
  {
    assert LogCodec(cx).trim(LogCodec(cx).trim(id)) == LogCodec(cx).trim(id);
  }

  // ---------------------------------------------------------------------------
  // One call

  /** What is appended and not committed. */
  ghost function Tail(w: World): seq<Mutation>
    requires Bounds(w)
  {
    w.history[w.log.committed..]
  }

  /** Committing the tail along with `m` does not show: for every ID but `m`'s, the tail's last mutation of it deletes
      what is not there or puts what is there already. */
  ghost predicate Invisible(e: Engine, m: Mutation)
    requires Bounds(e.world)
  {
    NothingShows(Fold(map[], Committed(e.world)), Tail(e.world), m)
  }

  lemma NoTailInvisible(e: Engine, m: Mutation)
    requires Bounds(e.world) && NoTail(e.world)
    ensures Invisible(e, m)
  {
    NoTailNothingPending(e.world);
  }

  /** An engine whose local state took in `m` agrees with its log, which now has `m` and the tail committed, exactly if
      the tail is invisible. */
  lemma LoggedCurrentIff(cx: Context, e: Engine, m: Mutation, r: Engine)
    requires ValidContext(cx) && Sound(cx, e.world) && Bounds(e.world) && Clean(cx, m)
    requires CanAppend(LogCodec(cx), e.world.log, m) && (m.deleted ==> m.document.title == [] && m.document.body == [])
    requires r.world == Logged(cx, e.world, m) && r.offset == e.world.log.last + 1
    requires Agrees(cx, Apply(Fold(map[], Committed(e.world)), m), r.local)
    ensures Sound(cx, r.world) && NoTail(r.world) && (Current(cx, r) <==> Invisible(e, m))
  {
    LoggedWorld(cx, e.world, m);
    hide Sound, ValidContext, CanPlace, Logged, Fold, CanAppend, Apply, Clean;
    SoundBounds(cx, r.world);
    CommittedImage(e.world, r.world, m);
    NothingShowsIff(Fold(map[], Committed(e.world)), Tail(e.world), m);
    hide NothingShows;
  }

  /** An accepted document that can be embedded and held leaves the engine current exactly if no tail shows through. */
  lemma PutCurrentIff(cx: Context, e: Engine, d: Document, media: Str)
    requires ValidContext(cx) && Sound(cx, e.world) && Current(cx, e)
    requires CanPlace(cx, Named(cx, d)) && Accepts(cx, e, Mutation(Named(cx, d), false))
    ensures var r := AfterPut(cx, e, d, media);
      Sound(cx, r.world) && NoTail(r.world) && (Current(cx, r) <==> Invisible(e, Mutation(Named(cx, d), false)))
  {
    var m := Mutation(Named(cx, d), false);
    TrimTwice(cx, d.id);
    PlacedAgrees(cx, Fold(map[], Committed(e.world)), e.local, Page(m.document, MediaOf(cx, media)));
    hide Sound, ValidContext, Logged, Placed, Fold, CanAppend, Agrees;
    LoggedCurrentIff(cx, e, m, AfterPut(cx, e, d, media));
  }

  lemma RemoveCurrentIff(cx: Context, e: Engine, id: Str)
    requires ValidContext(cx) && Sound(cx, e.world) && Current(cx, e) && Accepts(cx, e, Tombstone(cx, id))
    ensures var r := AfterRemove(cx, e, id);
      Sound(cx, r.world) && NoTail(r.world) && (Current(cx, r) <==> Invisible(e, Tombstone(cx, id)))
  {
    var m := Tombstone(cx, id);
    TrimTwice(cx, id);
    AppliedAgrees(cx, Fold(map[], Committed(e.world)), e.local, m);
    hide Sound, ValidContext, Logged, Fold, CanAppend, Agrees;
    LoggedCurrentIff(cx, e, m, AfterRemove(cx, e, id));
  }

  /** An accepted document that cannot be embedded or held is committed all the same. No state of documents and indexes
      agrees with the log any more, since the document has no vector; and where only the vector is refused, the lexical
      index has the document while the documents and the vector index do not. */
  lemma UnplaceableIsNotCurrent(cx: Context, e: Engine, d: Document, media: Str)
    requires ValidContext(cx) && Bounds(e.world)
    requires Accepts(cx, e, Mutation(Named(cx, d), false)) && !CanPlace(cx, Named(cx, d))
    ensures var r, named := AfterPut(cx, e, d, media), Named(cx, d);
      && Bounds(r.world) && named.id in Fold(map[], Committed(r.world))
      && Fold(map[], Committed(r.world))[named.id] == named
      && (forall s :: !Agrees(cx, Fold(map[], Committed(r.world)), s))
      && r.local == (if cx.embed(Contents(named)).None? then e.local
                     else e.local.(lexical := e.local.lexical[named.id := named]))
  {
    var m, r := Mutation(Named(cx, d), false), AfterPut(cx, e, d, media);
    TrimTwice(cx, d.id);
    KeptIsSame(cx, m);
    LoggedShape(cx, e.world, m);
    hide ValidContext, Fold, CanAppend, Logged;
    CommittedImage(e.world, r.world, m);
    var image := Fold(map[], Committed(r.world));
    assert VectorOf(cx, image[m.document.id]).None?;
  }

  /** Opening a sound log makes the engine current, tail or not. */
  lemma RecoveredIsCurrent(cx: Context, w: World)
    requires Sound(cx, w)
    ensures Bounds(w) && Current(cx, Recovered(cx, w))
  {
    SoundBounds(cx, w);
    hide Intact, Fold, AppliedAll;
    AppliedAllAgrees(cx, map[], NOTHING, Committed(w));
  }

  lemma SoundPrefix(cx: Context, w: World, t: World)
    requires AllClean(cx, w.history) && Intact(LogCodec(cx), t) && t.history <= w.history
    ensures Sound(cx, t)
  {
    hide Intact, Clean;
  }

  /** Reopening after any crash leaves a current engine. */
  lemma ReopenIsCurrent(cx: Context, e: Engine, cut: nat)
    requires ValidContext(cx) && Sound(cx, e.world)
    ensures var r := AfterReopen(cx, e, cut); Sound(cx, r.world) && Current(cx, r)
  {
    hide Intact, Crashed, ValidContext, AllClean, Secured;
    ContextCodec(cx);
    CrashKeepsIntact(LogCodec(cx), e.world, cut);
    SoundPrefix(cx, e.world, CrashedLog(cx, e.world, cut));
    RecoveredIsCurrent(cx, CrashedLog(cx, e.world, cut));
  }

  lemma AppendedSound(cx: Context, w: World, m: Mutation)
    requires ValidContext(cx) && Sound(cx, w) && Clean(cx, m) && CanAppend(LogCodec(cx), w.log, m)
    requires m.deleted ==> m.document.title == [] && m.document.body == []
    ensures var t := Next(LogCodec(cx), w, Append(m));
      && Sound(cx, t) && t.history == w.history + [m] && t.log.base == w.log.base && t.log.committed == w.log.committed
      && t.log.last == w.log.last + 1 && t.log.synced == w.log.synced && t.durable == w.durable
  {
    KeptIsSame(cx, m);
    AppendKeepsIntact(LogCodec(cx), w, m);
    hide Intact, CanAppend, CanPlace, ValidContext, WriteAt, RecordBytes;
  }

  /** So does a crash anywhere between append and sync of an upsert or delete. */
  lemma InterruptedIsCurrent(cx: Context, e: Engine, m: Mutation, cut: nat)
    requires ValidContext(cx) && Sound(cx, e.world) && Clean(cx, m) && Accepts(cx, e, m)
    requires m.deleted ==> m.document.title == [] && m.document.body == []
    ensures var r := AfterInterrupted(cx, e, m, cut); Sound(cx, r.world) && Current(cx, r)
  {
    hide Intact, Crashed, ValidContext, AllClean, Secured, Committing, CanAppend, Clean;
    var c, sequence := LogCodec(cx), e.world.log.last + 1;
    ContextCodec(cx);
    AppendedSound(cx, e.world, m);
    SoundBounds(cx, e.world);
    var w := Next(c, e.world, Append(m));
    CommittingKeepsIntact(c, w, sequence);
    CommittingShape(c, w, sequence);
    CrashKeepsIntact(c, Committing(c, w, sequence), cut);
    SoundPrefix(cx, w, InterruptedLog(cx, e.world, m, cut));
    RecoveredIsCurrent(cx, InterruptedLog(cx, e.world, m, cut));
  }
}
