/** The inverted index as a function of the documents in it: postings, lengths, matching and ranking. */
module SearchIndex {

  import opened Bytes
  import opened Ordering
  import opened Documents
  import opened Tokens

  /** Tokenizing, trimming of white space, and the logarithm, as far as the index needs to know them. */
  datatype Text = Text(tokenize: Str -> seq<Str>, trim: Str -> Str, log: real -> real)

  /** How often a term occurs in a document's fields. */
  datatype Counts = Counts(title: nat, body: nat)

  datatype Lengths = Lengths(title: nat, body: nat)

  type PostingMap = map<Str, map<Str, Counts>>

  function DocumentTerms(t: Text, d: Document): set<Str> {
    Elements(t.tokenize(d.title)) + Elements(t.tokenize(d.body))
  }

  function CountsOf(t: Text, d: Document, term: Str): Counts {
    Counts(Frequency(t.tokenize(d.title), term), Frequency(t.tokenize(d.body), term))
  }

  function LengthsOf(t: Text, d: Document): Lengths {
    Lengths(|t.tokenize(d.title)|, |t.tokenize(d.body)|)
  }

  // ---------------------------------------------------------------------------
  // Postings

  ghost predicate Listed(postings: PostingMap, term: Str, id: Str) { term in postings && id in postings[term] }

  /** The postings list a document under a term exactly when the term occurs in it, with its frequencies, and no term
      has an empty list. */
  ghost predicate Indexed(t: Text, docs: Image, postings: PostingMap) {
    && (forall term :: term in postings ==> postings[term] != map[])
    && (forall term, id :: Listed(postings, term, id) <==> id in docs && term in DocumentTerms(t, docs[id]))
    && (forall term, id :: Listed(postings, term, id) ==>
         id in docs && postings[term][id] == CountsOf(t, docs[id], term))
  }

  /** The documents determine the postings. */
  lemma PostingsUnique(t: Text, docs: Image, a: PostingMap, b: PostingMap)
    requires Indexed(t, docs, a) && Indexed(t, docs, b)
    ensures a == b
  {
    hide DocumentTerms, CountsOf;
    PostingsWithin(t, docs, a, b);
    PostingsWithin(t, docs, b, a);
  }

  lemma PostingsWithin(t: Text, docs: Image, a: PostingMap, b: PostingMap)
    requires Indexed(t, docs, a) && Indexed(t, docs, b)
    ensures forall term :: term in a ==> term in b && a[term] == b[term]
  {
    hide DocumentTerms, CountsOf;
    forall term | term in a ensures term in b && a[term] == b[term] {
      var id :| id in a[term];
      assert Listed(a, term, id) && Listed(b, term, id);
      forall x ensures (x in a[term] <==> x in b[term]) && (x in a[term] ==> a[term][x] == b[term][x]) {
        assert Listed(a, term, x) <==> Listed(b, term, x);
      }
    }
  }

  /** Postings with `id` taken out of the lists of the terms in `done`, and lists that become empty removed. */
  function Dropped(postings: PostingMap, id: Str, done: set<Str>): PostingMap {
    map term | term in postings && (term in done ==> postings[term] - {id} != map[]) ::
      if term in done then postings[term] - {id} else postings[term]
  }

  lemma DroppedListed(postings: PostingMap, id: Str, done: set<Str>, term: Str, x: Str)
    ensures var r := Dropped(postings, id, done);
      && (Listed(r, term, x) <==> Listed(postings, term, x) && !(term in done && x == id))
      && (Listed(r, term, x) ==> r[term][x] == postings[term][x])
  {
    if Listed(postings, term, x) && !(term in done && x == id) {
      assert term in done ==> x in postings[term] - {id};
    }
  }

  lemma DroppedNotEmpty(postings: PostingMap, id: Str, done: set<Str>)
    requires forall term :: term in postings ==> postings[term] != map[]
    ensures forall term :: term in Dropped(postings, id, done) ==> Dropped(postings, id, done)[term] != map[]
  {
  }

  /** Taking a document out of the lists of its own terms leaves the index of the other documents. */
  lemma DropIndexed(t: Text, docs: Image, postings: PostingMap, id: Str)
    requires Indexed(t, docs, postings) && id in docs
    ensures Indexed(t, docs - {id}, Dropped(postings, id, DocumentTerms(t, docs[id])))
  {
    hide Dropped, DocumentTerms, CountsOf;
    var done, left := DocumentTerms(t, docs[id]), docs - {id};
    var r := Dropped(postings, id, done);
    DroppedNotEmpty(postings, id, done);
    forall term, x ensures Listed(r, term, x) <==> x in left && term in DocumentTerms(t, left[x]) {
      DroppedListed(postings, id, done, term, x);
    }
    forall term, x | Listed(r, term, x) ensures x in left && r[term][x] == CountsOf(t, left[x], term) {
      DroppedListed(postings, id, done, term, x);
    }
  }

  function ListFor(postings: PostingMap, term: Str): map<Str, Counts> {
    if term in postings then postings[term] else map[]
  }

  /** Postings with `d` put in the lists of the terms in `done`. */
  function Added(t: Text, postings: PostingMap, d: Document, done: set<Str>): PostingMap {
    map term | term in postings.Keys + done ::
      if term in done then ListFor(postings, term)[d.id := CountsOf(t, d, term)] else postings[term]
  }

  lemma AddedListed(t: Text, postings: PostingMap, d: Document, done: set<Str>, term: Str, x: Str)
    ensures var r := Added(t, postings, d, done);
      && (Listed(r, term, x) <==> (term in done && x == d.id) || Listed(postings, term, x))
      && (Listed(r, term, x) ==>
           r[term][x] == if term in done && x == d.id then CountsOf(t, d, term) else postings[term][x])
  {
    hide CountsOf;
  }

  lemma AddedNotEmpty(t: Text, postings: PostingMap, d: Document, done: set<Str>)
    requires forall term :: term in postings ==> postings[term] != map[]
    ensures forall term :: term in Added(t, postings, d, done) ==> Added(t, postings, d, done)[term] != map[]
  {
    hide CountsOf;
    forall term | term in Added(t, postings, d, done) ensures Added(t, postings, d, done)[term] != map[] {
      if term in done {
        assert d.id in Added(t, postings, d, done)[term];
      }
    }
  }

  /** Putting a new document in the lists of its own terms gives the index of all the documents. */
  lemma AddIndexed(t: Text, docs: Image, postings: PostingMap, d: Document)
    requires Indexed(t, docs, postings) && d.id !in docs
    ensures Indexed(t, docs[d.id := d], Added(t, postings, d, DocumentTerms(t, d)))
  {
    hide Added, DocumentTerms, CountsOf;
    var done, next := DocumentTerms(t, d), docs[d.id := d];
    var r := Added(t, postings, d, done);
    AddedNotEmpty(t, postings, d, done);
    forall term, x ensures Listed(r, term, x) <==> x in next && term in DocumentTerms(t, next[x]) {
      AddedListed(t, postings, d, done, term, x);
    }
    forall term, x | Listed(r, term, x) ensures x in next && r[term][x] == CountsOf(t, next[x], term) {
      AddedListed(t, postings, d, done, term, x);
    }
  }

  // ---------------------------------------------------------------------------
  // Lengths and totals

  function TitleOf(l: Lengths): nat { l.title }
  function BodyOf(l: Lengths): nat { l.body }

  function AllLengths(t: Text, docs: Image): map<Str, Lengths> {
    map id | id in docs :: LengthsOf(t, docs[id])
  }

  function AllTerms(t: Text, docs: Image): map<Str, set<Str>> {
    map id | id in docs :: DocumentTerms(t, docs[id])
  }

  ghost function Sum(lengths: map<Str, Lengths>, field: Lengths -> nat): nat {
    if lengths == map[] then 0
    else
      var id :| id in lengths;
      field(lengths[id]) + Sum(lengths - {id}, field)
  }

  lemma {:induction false} SumSplit(lengths: map<Str, Lengths>, field: Lengths -> nat, id: Str)
    requires id in lengths
    ensures Sum(lengths, field) == field(lengths[id]) + Sum(lengths - {id}, field)
    decreases |lengths|
  {
    var first :| first in lengths && Sum(lengths, field) == field(lengths[first]) + Sum(lengths - {first}, field);
    if first != id {
      Smaller(lengths, first);
      Smaller(lengths, id);
      SumSplit(lengths - {first}, field, id);
      SumSplit(lengths - {id}, field, first);
      assert lengths - {first} - {id} == lengths - {id} - {first};
    }
  }

  lemma Smaller(lengths: map<Str, Lengths>, id: Str)
    requires id in lengths
    ensures |lengths - {id}| < |lengths|
  {
    assert (lengths - {id}).Keys == lengths.Keys - {id};
    assert |(lengths - {id}).Keys| == |lengths - {id}| && |lengths.Keys| == |lengths|;
  }

  lemma SumWith(lengths: map<Str, Lengths>, field: Lengths -> nat, id: Str, l: Lengths)
    requires id !in lengths
    ensures Sum(lengths[id := l], field) == Sum(lengths, field) + field(l)
  {
    SumSplit(lengths[id := l], field, id);
    assert lengths[id := l] - {id} == lengths;
  }

  // ---------------------------------------------------------------------------
  // The whole index

  /** All an index holds besides the documents. */
  datatype Derived = Derived(postings: PostingMap, terms: map<Str, set<Str>>, lengths: map<Str, Lengths>, title: nat,
    body: nat)

  /** The index belongs to these documents. */
  ghost predicate Belongs(t: Text, docs: Image, x: Derived) {
    && Indexed(t, docs, x.postings) && x.terms == AllTerms(t, docs) && x.lengths == AllLengths(t, docs)
    && x.title == Sum(AllLengths(t, docs), TitleOf) && x.body == Sum(AllLengths(t, docs), BodyOf)
  }

  /** Whatever the history of upserts and deletes, the same documents make the same index. */
  lemma SameDocumentsSameIndex(t: Text, docs: Image, a: Derived, b: Derived)
    requires Belongs(t, docs, a) && Belongs(t, docs, b)
    ensures a == b
  {
    hide Indexed, AllTerms, AllLengths, Sum;
    PostingsUnique(t, docs, a.postings, b.postings);
  }

  function Without(x: Derived, id: Str): Derived
    requires id in x.lengths && id in x.terms && x.lengths[id].title <= x.title && x.lengths[id].body <= x.body
  {
    Derived(Dropped(x.postings, id, x.terms[id]), x.terms - {id}, x.lengths - {id},
            x.title - x.lengths[id].title, x.body - x.lengths[id].body)
  }

  function With(t: Text, x: Derived, d: Document): Derived {
    Derived(Added(t, x.postings, d, DocumentTerms(t, d)), x.terms[d.id := DocumentTerms(t, d)],
            x.lengths[d.id := LengthsOf(t, d)], x.title + LengthsOf(t, d).title, x.body + LengthsOf(t, d).body)
  }

  /** The totals are never smaller than what a deletion subtracts. */
  lemma NoUnderflow(t: Text, docs: Image, x: Derived, id: Str)
    requires Belongs(t, docs, x) && id in docs
    ensures id in x.lengths && id in x.terms && x.lengths[id].title <= x.title && x.lengths[id].body <= x.body
  {
    hide Indexed, Sum;
    SumSplit(x.lengths, TitleOf, id);
    SumSplit(x.lengths, BodyOf, id);
  }

  lemma WithoutBelongs(t: Text, docs: Image, x: Derived, id: Str)
    requires Belongs(t, docs, x) && id in docs
    ensures id in x.lengths && id in x.terms && x.lengths[id].title <= x.title && x.lengths[id].body <= x.body
    ensures Belongs(t, docs - {id}, Without(x, id))
  {
    hide Indexed, Sum, DocumentTerms, LengthsOf, Dropped;
    NoUnderflow(t, docs, x, id);
    DropIndexed(t, docs, x.postings, id);
    SumSplit(x.lengths, TitleOf, id);
    SumSplit(x.lengths, BodyOf, id);
    assert AllLengths(t, docs - {id}) == x.lengths - {id};
    assert AllTerms(t, docs - {id}) == x.terms - {id};
  }

  lemma WithBelongs(t: Text, docs: Image, x: Derived, d: Document)
    requires Belongs(t, docs, x) && d.id !in docs
    ensures Belongs(t, docs[d.id := d], With(t, x, d))
  {
    hide Indexed, Sum, DocumentTerms, LengthsOf, Added;
    AddIndexed(t, docs, x.postings, d);
    SumWith(x.lengths, TitleOf, d.id, LengthsOf(t, d));
    SumWith(x.lengths, BodyOf, d.id, LengthsOf(t, d));
    assert AllLengths(t, docs[d.id := d]) == x.lengths[d.id := LengthsOf(t, d)];
    assert AllTerms(t, docs[d.id := d]) == x.terms[d.id := DocumentTerms(t, d)];
  }

  // ---------------------------------------------------------------------------
  // Matching and ranking, from the documents alone

  datatype Mode = MatchAll | MatchAny

  ghost predicate Matches(t: Text, d: Document, terms: seq<Str>, mode: Mode) {
    match mode
    case MatchAll => forall i :: 0 <= i < |terms| ==> terms[i] in DocumentTerms(t, d)
    case MatchAny => exists i :: 0 <= i < |terms| && terms[i] in DocumentTerms(t, d)
  }

  ghost function Matching(t: Text, docs: Image, terms: seq<Str>, mode: Mode): set<Str> {
    set id | id in docs && Matches(t, docs[id], terms, mode)
  }

  ghost function Containing(t: Text, docs: Image, term: Str): set<Str> {
    set id | id in docs && term in DocumentTerms(t, docs[id])
  }

  const K1: real := 1.2
  const B: real := 0.75
  const TITLE_WEIGHT: real := 2.5

  lemma Quotient(x: real, y: real)
    requires x >= 0.0 && y > 0.0
    ensures x / y >= 0.0
  {
  }

  function NormalizedFrequency(frequency: nat, length: nat, average: real): real
    requires average >= 0.0
  {
    if frequency == 0 then 0.0
    else
      var base := if average == 0.0 then 1.0 else average;
      Quotient(length as real, base);
      frequency as real * (K1 + 1.0) / (frequency as real + K1 * (1.0 - B + B * (length as real / base)))
  }

  /** What one term adds to a score; `containing` documents out of `total` contain it. */
  function TermScore(t: Text, total: nat, containing: nat, c: Counts, l: Lengths, averages: (real, real)): real
    requires averages.0 >= 0.0 && averages.1 >= 0.0
  {
    t.log(1.0 + (total as real - containing as real + 0.5) / (containing as real + 0.5)) *
    (TITLE_WEIGHT * NormalizedFrequency(c.title, l.title, averages.0) + NormalizedFrequency(c.body, l.body, averages.1))
  }

  function Average(sum: nat, count: nat): (r: real)
    requires count > 0
    ensures r >= 0.0
  {
    Quotient(sum as real, count as real);
    sum as real / count as real
  }

  ghost function Averages(t: Text, docs: Image): (r: (real, real))
    requires docs != map[]
    ensures r.0 >= 0.0 && r.1 >= 0.0
  {
    (Average(Sum(AllLengths(t, docs), TitleOf), |docs|), Average(Sum(AllLengths(t, docs), BodyOf), |docs|))
  }

  /** The relevance of a document, computed from the documents alone. */
  ghost function Score(t: Text, docs: Image, id: Str, terms: seq<Str>): real
    requires id in docs
  {
    if terms == [] then 0.0
    else
      var term := terms[|terms| - 1];
      Score(t, docs, id, terms[..|terms| - 1]) +
      TermScore(t, |docs|, |Containing(t, docs, term)|, CountsOf(t, docs[id], term), LengthsOf(t, docs[id]),
        Averages(t, docs))
  }

  datatype Result = Result(document: Document, score: real)

  predicate RankBefore(a: Result, b: Result) {
    if a.score != b.score then a.score > b.score else Less(a.document.id, b.document.id)
  }

  ghost function Scored(t: Text, docs: Image, id: Str, terms: seq<Str>): Result
    requires id in docs
  {
    Result(docs[id], Score(t, docs, id, terms))
  }

  /** All results a query has, by brute force; a query without terms has none. */
  ghost function Pool(t: Text, docs: Image, terms: seq<Str>, mode: Mode): set<Result> {
    if terms == [] then {} else set id | id in Matching(t, docs, terms, mode) :: Scored(t, docs, id, terms)
  }

  function Unique(terms: seq<Str>): (r: seq<Str>)
    ensures Distinct(r) && Elements(r) == Elements(terms)
  {
    if terms == [] then []
    else
      var init, last := terms[..|terms| - 1], terms[|terms| - 1];
      assert terms == init + [last];
      ElementsSnoc(init, last);
      ElementsSnoc(Unique(init), last);
      assert forall x :: x in Unique(init) <==> x in Elements(Unique(init));
      if last in Unique(init) then Unique(init) else Unique(init) + [last]
  }

  /** The position at which a term first occurs. */
  function FirstAt(terms: seq<Str>, term: Str): (r: nat)
    requires term in terms
    ensures r < |terms| && terms[r] == term && forall i :: 0 <= i < r ==> terms[i] != term
  {
    var init := terms[..|terms| - 1];
    if term in init then FirstAt(init, term) else
      assert terms == init + [terms[|terms| - 1]];
      |terms| - 1
  }

  /** Unique terms come in the order in which they first occur. */
  lemma {:induction false} UniqueKeepsOrder(terms: seq<Str>, i: nat, j: nat)
    requires i < j < |Unique(terms)|
    ensures Unique(terms)[i] in terms && Unique(terms)[j] in terms
    ensures FirstAt(terms, Unique(terms)[i]) < FirstAt(terms, Unique(terms)[j])
  {
    var init, last := terms[..|terms| - 1], terms[|terms| - 1];
    assert terms == init + [last];
    UniqueWithin(terms);
    UniqueWithin(init);
    if j < |Unique(init)| {
      UniqueKeepsOrder(init, i, j);
    } else {
      assert last !in init;
    }
  }

  lemma UniqueWithin(terms: seq<Str>)
    ensures forall x :: x in Unique(terms) <==> x in terms
  {
    forall x ensures x in Unique(terms) <==> x in terms {
      assert x in Unique(terms) <==> x in Elements(Unique(terms));
      assert x in terms <==> x in Elements(terms);
    }
  }

  lemma RankOrder()
    ensures WeakOrder(RankBefore)
    ensures forall a: Result, b: Result :: a.document.id != b.document.id ==> RankBefore(a, b) || RankBefore(b, a)
  {
    LessTotal();
    hide Less;
    forall x: Result, y: Result, z: Result | RankBefore(x, y) && RankBefore(y, z) ensures RankBefore(x, z) {}
    forall x: Result, y: Result, z: Result | RankBefore(x, z) ensures RankBefore(x, y) || RankBefore(y, z) {}
  }

  /** Postings lists have one entry for each document that contains the term. */
  lemma PostingCount(t: Text, docs: Image, postings: PostingMap, term: Str)
    requires Indexed(t, docs, postings)
    ensures ListFor(postings, term).Keys == Containing(t, docs, term)
    ensures |ListFor(postings, term)| == |Containing(t, docs, term)|
  {
    hide DocumentTerms, CountsOf;
    forall id ensures id in ListFor(postings, term) <==> id in Containing(t, docs, term) {
      assert Listed(postings, term, id) <==> id in ListFor(postings, term);
    }
    assert ListFor(postings, term).Keys == Containing(t, docs, term);
    assert |ListFor(postings, term).Keys| == |ListFor(postings, term)|;
  }
}
