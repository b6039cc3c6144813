/** What one call on the engine changes: the log, the documents and both indexes. */
module EngineEffects {

  import opened Bytes
  import opened Documents
  import opened Wrappers
  import opened Vectors
  import opened WalCodec
  import opened Wal
  import opened WalEffects
  import opened EngineModel

  /** A logged mutation is the last of the history, committed and synced. */
  lemma LoggedEffect(cx: Context, w: World, m: Mutation)
    requires ValidContext(cx) && Intact(LogCodec(cx), w) && CanAppend(LogCodec(cx), w.log, m)
    ensures var t := Logged(cx, w, m);
      && Intact(LogCodec(cx), t) && t.history == w.history + [Kept(LogCodec(cx), m)] && t.log.base == w.log.base
      && t.log.committed == t.log.last == |t.history| && t.log.synced == |t.log.file|
  {
    hide Intact, Next, CanAppend, ReplayOf, ValidCodec, Kept;
    var c := LogCodec(cx);
    var u := Next(c, w, Append(m));
    assert Ordered(w) by { IntactOrdered(c, w); }
    AppendEffect(c, w, m);
    AppendKeepsIntact(c, w, m);
    IntactOrdered(c, u);
    CommitEffect(c, u, w.log.last + 1);
    CommitSecures(c, u, w.log.last + 1);
  }

  lemma IntactOrdered(c: Codec, w: World)
    requires Intact(c, w)
    ensures Ordered(w)
  {
  }

  /** The vector of a text that can be embedded and normalized, and whose normalized form can be normalized again. */
  ghost predicate Embeds(cx: Context, text: Str, v: Vec) {
    && cx.embed(text).Some? && cx.normalize(cx.embed(text).value) == Some(v) && cx.normalize(v).Some?
  }

  /** An upsert that is taken logs the document under its trimmed ID and, when its title, a newline and its body embed,
      stores it with its media type, puts it in the lexical index, and its vector in the other. What fails to embed is
      logged all the same. Nothing is changed under any other ID. An upsert that is refused changes nothing. */
  lemma PutEffect(cx: Context, e: Engine, d: Document, media: Str)
    requires ValidContext(cx) && Intact(LogCodec(cx), e.world)
    ensures var id, t := cx.trim(d.id), AfterPut(cx, e, d, media);
      var named, text := d.(id := id), d.title + [10] + d.body;
      if id == [] || !CanAppend(LogCodec(cx), e.world.log, Mutation(named, false)) then t == e
      else
        && t.world.history == e.world.history + [Mutation(named, false)]
        && t.world.log.committed == t.world.log.last == |t.world.history| && t.world.log.synced == |t.world.log.file|
        && (forall v :: Embeds(cx, text, v) ==>
              && t.local.documents == e.local.documents[id :=
                   Page(named, if cx.trim(media) == [] then DEFAULT_MEDIA else cx.trim(media))]
              && t.local.lexical == e.local.lexical[id := named] && t.local.vectors == e.local.vectors[id := v]
              && t.offset == |t.world.history|)
        && ((forall v :: !Embeds(cx, text, v)) ==>
              && t.local.documents == e.local.documents && t.local.vectors == e.local.vectors && t.offset == e.offset
              && t.local.lexical == if cx.embed(text).None? then e.local.lexical else e.local.lexical[id := named])
  {
    var id := cx.trim(d.id);
    var m := Mutation(d.(id := id), false);
    hide Logged, CanAppend, Intact;
    if id != [] && CanAppend(LogCodec(cx), e.world.log, m) {
      LoggedEffect(cx, e.world, m);
      assert cx.trim(id) == id by { assert ValidCodec(LogCodec(cx)); }
      IntactOrdered(LogCodec(cx), e.world);
      var v := cx.embed(d.title + [10] + d.body);
      if CanPlace(cx, m.document) {
        assert Embeds(cx, d.title + [10] + d.body, cx.normalize(v.value).value);
      }
    }
  }

  /** A deletion that is taken is logged, and takes its trimmed ID out of the documents and both indexes. */
  lemma RemoveEffect(cx: Context, e: Engine, raw: Str)
    requires ValidContext(cx) && Intact(LogCodec(cx), e.world)
    ensures var id, t := cx.trim(raw), AfterRemove(cx, e, raw);
      if id == [] || !CanAppend(LogCodec(cx), e.world.log, Mutation(Document(id, [], []), true)) then t == e
      else
        && t.world.history == e.world.history + [Mutation(Document(id, [], []), true)]
        && t.world.log.committed == t.world.log.last == |t.world.history| && t.world.log.synced == |t.world.log.file|
        && t.local.documents == e.local.documents - {id} && t.local.lexical == e.local.lexical - {id}
        && t.local.vectors == e.local.vectors - {id} && t.offset == |t.world.history|
  {
    var id := cx.trim(raw);
    var m := Mutation(Document(id, [], []), true);
    hide Logged, CanAppend, Intact;
    if id != [] && CanAppend(LogCodec(cx), e.world.log, m) {
      LoggedEffect(cx, e.world, m);
      assert cx.trim(id) == id by { assert ValidCodec(LogCodec(cx)); }
      IntactOrdered(LogCodec(cx), e.world);
    }
  }

  ghost predicate DefaultMedia(s: Local) {
    forall id :: id in s.documents ==> s.documents[id].media == DEFAULT_MEDIA
  }

  lemma AppliedMedia(cx: Context, s: Local, m: Mutation)
    requires DefaultMedia(s)
    ensures DefaultMedia(Applied(cx, s, m))
  {
    hide VectorOf, Contents;
    var t := Applied(cx, s, m);
    forall id | id in t.documents ensures t.documents[id].media == DEFAULT_MEDIA {
      assert t.documents[id] == Page(m.document, DEFAULT_MEDIA) ||
        (id in s.documents && t.documents[id] == s.documents[id]);
    }
  }

  /** After opening, every document has the default media type: the log does not keep it. */
  lemma {:induction false} ReplayForgetsMedia(cx: Context, ms: seq<Mutation>)
    ensures DefaultMedia(AppliedAll(cx, NOTHING, ms))
  {
    hide Applied;
    if ms != [] {
      ReplayForgetsMedia(cx, ms[..|ms| - 1]);
      AppliedMedia(cx, AppliedAll(cx, NOTHING, ms[..|ms| - 1]), ms[|ms| - 1]);
    }
  }
}
