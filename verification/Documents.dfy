/** Documents, the mutations that change them, and the image a log of mutations denotes. */
module Documents {

  import opened Bytes
  import opened Ordering
  import opened Wrappers

  datatype Document = Document(id: Str, title: Str, body: Str)

  datatype Mutation = Mutation(document: Document, deleted: bool)

  type Image = map<Str, Document>

  function Apply(image: Image, m: Mutation): Image {
    if m.deleted then image - {m.document.id} else image[m.document.id := m.document]
  }

  /** The image left by applying `ms` in order. */
  function Fold(image: Image, ms: seq<Mutation>): Image {
    if ms == [] then image else Apply(Fold(image, ms[..|ms| - 1]), ms[|ms| - 1])
  }

  lemma FoldNothing(image: Image)
    ensures Fold(image, []) == image
  {
  }

  lemma {:induction false} FoldAppend(image: Image, a: seq<Mutation>, b: seq<Mutation>)
    ensures Fold(image, a + b) == Fold(Fold(image, a), b)
  {
    if b == [] {
      assert a + b == a;
    } else {
      var c := b[..|b| - 1];
      assert (a + b)[..|a + b| - 1] == a + c;
      FoldAppend(image, a, c);
    }
  }

  lemma FoldSnoc(image: Image, ms: seq<Mutation>, m: Mutation)
    ensures Fold(image, ms + [m]) == Apply(Fold(image, ms), m)
  {
    assert (ms + [m])[..|ms|] == ms;
  }

  /** The last mutation of an ID. */
  function LastFor(ms: seq<Mutation>, id: Str): Option<Mutation> {
    if ms == [] then None
    else if ms[|ms| - 1].document.id == id then Some(ms[|ms| - 1])
    else LastFor(ms[..|ms| - 1], id)
  }

  /** An ID is as its last mutation left it, or as it was. */
  lemma {:induction false} FoldAt(image: Image, ms: seq<Mutation>, id: Str)
    ensures var r, last := Fold(image, ms), LastFor(ms, id);
      && (last.None? ==> (id in r <==> id in image) && (id in image ==> r[id] == image[id]))
      && (last.Some? ==>
           && last.value.document.id == id && (id in r <==> !last.value.deleted)
           && (id in r ==> r[id] == last.value.document))
  {
    if ms != [] {
      FoldAt(image, ms[..|ms| - 1], id);
    }
  }

  /** The mutation changes nothing: it deletes what is not there, or puts what is there already. */
  predicate AlreadyShown(image: Image, m: Mutation) {
    if m.deleted then m.document.id !in image else m.document.id in image && image[m.document.id] == m.document
  }

  /** Nothing of `ms` shows through once `m` is applied: the last mutation of every other ID changes nothing. */
  ghost predicate NothingShows(image: Image, ms: seq<Mutation>, m: Mutation) {
    forall id :: id != m.document.id && LastFor(ms, id).Some? ==> AlreadyShown(image, LastFor(ms, id).value)
  }

  lemma NothingShowsIff(image: Image, ms: seq<Mutation>, m: Mutation)
    ensures NothingShows(image, ms, m) <==> Apply(Fold(image, ms), m) == Apply(image, m)
  {
    hide Fold, LastFor;
    var a, b := Apply(Fold(image, ms), m), Apply(image, m);
    if NothingShows(image, ms, m) {
      forall id ensures (id in a <==> id in b) && (id in a ==> a[id] == b[id]) {
        FoldAt(image, ms, id);
      }
    } else {
      var id :| id != m.document.id && LastFor(ms, id).Some? && !AlreadyShown(image, LastFor(ms, id).value);
      FoldAt(image, ms, id);
      assert (id in a) != (id in b) || a[id] != b[id];
    }
  }

  /** Every document is stored under its own ID. */
  ghost predicate Keyed(image: Image) {
    forall id :: id in image ==> image[id].id == id
  }

  lemma {:induction false} FoldKeyed(image: Image, ms: seq<Mutation>)
    requires Keyed(image)
    ensures Keyed(Fold(image, ms))
  {
    if ms != [] {
      FoldKeyed(image, ms[..|ms| - 1]);
    }
  }

  /** The image a list of documents denotes, a later document replacing an earlier one. */
  function ImageOf(documents: seq<Document>): Image {
    if documents == [] then map[]
    else
      var last := documents[|documents| - 1];
      ImageOf(documents[..|documents| - 1])[last.id := last]
  }

  lemma {:induction false} ImageOfListing(documents: seq<Document>)
    ensures forall id :: id in ImageOf(documents) ==>
      ImageOf(documents)[id] in documents && ImageOf(documents)[id].id == id
    ensures forall d :: d in documents ==> d.id in ImageOf(documents)
  {
    if documents != [] {
      ImageOfListing(documents[..|documents| - 1]);
    }
  }

  /** A listing of an image's documents denotes that image. */
  lemma ListingRoundTrip(image: Image, documents: seq<Document>)
    requires Keyed(image)
    requires forall d :: d in documents <==> d in image.Values
    ensures ImageOf(documents) == image
  {
    ImageOfListing(documents);
    forall id | id in image ensures id in ImageOf(documents) && ImageOf(documents)[id] == image[id] {
      assert image[id] in image.Values;
      assert image[id] in documents;
    }
  }

  // ---------------------------------------------------------------------------
  // Documents in order of ID

  predicate DocumentBefore(a: Document, b: Document) { Less(a.id, b.id) }

  lemma DocumentOrder()
    ensures WeakOrder(DocumentBefore)
    ensures forall a: Document, b: Document :: a.id != b.id ==> DocumentBefore(a, b) || DocumentBefore(b, a)
  {
    LessTotal();
    hide Less;
    forall x: Document, y: Document, z: Document | DocumentBefore(x, z)
      ensures DocumentBefore(x, y) || DocumentBefore(y, z) {
      assert x.id == y.id || Less(x.id, y.id) || Less(y.id, x.id);
    }
  }

  ghost predicate DistinctDocumentIds(s: seq<Document>) {
    forall i, j :: 0 <= i < j < |s| ==> s[i].id != s[j].id
  }

  lemma SortedDocuments(texts: seq<Document>)
    requires DistinctDocumentIds(texts)
    ensures StrictlySorted(DocumentBefore, Sort(DocumentBefore, texts))
    ensures Elements(Sort(DocumentBefore, texts)) == Elements(texts)
  {
    hide DocumentBefore, Less;
    DocumentOrder();
    SortByKey(DocumentBefore, (d: Document) => d.id, texts);
  }
}
