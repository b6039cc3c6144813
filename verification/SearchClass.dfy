/** The inverted index as an object, and its search. */
module SearchObjects {

  import opened Bytes
  import opened Ordering
  import opened Documents
  import opened Tokens
  import opened SearchIndex

  datatype SearchError = IdRequired | NegativeLimit

  datatype Outcome<+T> = Success(value: T) | Failure(error: SearchError)

  /** Each term once, in order of first occurrence. */
  method UniqueTerms(terms: seq<Str>) returns (unique: seq<Str>)
    ensures unique == Unique(terms)
  {
    var seen: set<Str> := {};
    unique := [];
    for i := 0 to |terms|
      invariant unique == Unique(terms[..i]) && seen == Elements(unique)
    {
      assert terms[..i + 1][..i] == terms[..i];
      if terms[i] in seen { continue; }
      ElementsSnoc(unique, terms[i]);
      seen := seen + {terms[i]};
      unique := unique + [terms[i]];
    }
    assert terms[..|terms|] == terms;
  }

  lemma CountsFrom(t: Text, d: Document, title: map<Str, nat>, body: map<Str, nat>, term: Str)
    requires title.Keys == Elements(t.tokenize(d.title)) && body.Keys == Elements(t.tokenize(d.body))
    requires forall x :: x in title ==> title[x] == Frequency(t.tokenize(d.title), x)
    requires forall x :: x in body ==> body[x] == Frequency(t.tokenize(d.body), x)
    ensures Counts(CountIn(title, term), CountIn(body, term)) == CountsOf(t, d, term)
  {
    FrequencyOfToken(t.tokenize(d.title), term);
    FrequencyOfToken(t.tokenize(d.body), term);
  }

  lemma DroppedNext(postings: PostingMap, id: Str, done: set<Str>, term: Str)
    requires term in postings && term !in done
    ensures term in Dropped(postings, id, done) && Dropped(postings, id, done)[term] == postings[term]
    ensures Dropped(postings, id, done + {term}) ==
      if postings[term] - {id} == map[] then Dropped(postings, id, done) - {term}
      else Dropped(postings, id, done)[term := postings[term] - {id}]
  {
  }

  lemma AddedNext(t: Text, postings: PostingMap, d: Document, done: set<Str>, term: Str)
    requires term !in done
    ensures ListFor(Added(t, postings, d, done), term) == ListFor(postings, term)
    ensures Added(t, postings, d, done + {term}) ==
      Added(t, postings, d, done)[term := ListFor(postings, term)[d.id := CountsOf(t, d, term)]]
  {
    hide CountsOf;
  }

  lemma NothingDone(t: Text, postings: PostingMap, id: Str, d: Document)
    ensures Dropped(postings, id, {}) == postings && Added(t, postings, d, {}) == postings
  {
  }

  lemma TermsListed(t: Text, docs: Image, postings: PostingMap, id: Str)
    requires Indexed(t, docs, postings) && id in docs
    ensures DocumentTerms(t, docs[id]) <= postings.Keys
  {
    hide DocumentTerms, CountsOf;
    forall term | term in DocumentTerms(t, docs[id]) ensures term in postings {
      assert Listed(postings, term, id);
    }
  }

  /** The loop invariant of matching any term, and of matching all. */
  lemma MatchingNext(t: Text, docs: Image, terms: seq<Str>, i: nat)
    requires i < |terms|
    ensures Matching(t, docs, terms[..i + 1], MatchAny) ==
      Matching(t, docs, terms[..i], MatchAny) + Containing(t, docs, terms[i])
    ensures Matching(t, docs, terms[..i + 1], MatchAll) ==
      Matching(t, docs, terms[..i], MatchAll) * Containing(t, docs, terms[i])
  {
    hide DocumentTerms;
    forall id | id in docs ensures Matches(t, docs[id], terms[..i + 1], MatchAny) <==>
      Matches(t, docs[id], terms[..i], MatchAny) || terms[i] in DocumentTerms(t, docs[id]) {
      AnyNext(t, docs[id], terms, i);
    }
    forall id | id in docs ensures Matches(t, docs[id], terms[..i + 1], MatchAll) <==>
      Matches(t, docs[id], terms[..i], MatchAll) && terms[i] in DocumentTerms(t, docs[id]) {
      AllNext(t, docs[id], terms, i);
    }
    hide Matches;
  }

  lemma AnyNext(t: Text, d: Document, terms: seq<Str>, i: nat)
    requires i < |terms|
    ensures Matches(t, d, terms[..i + 1], MatchAny) <==>
      Matches(t, d, terms[..i], MatchAny) || terms[i] in DocumentTerms(t, d)
  {
    hide DocumentTerms;
    if Matches(t, d, terms[..i], MatchAny) {
      var j :| 0 <= j < i && terms[..i][j] in DocumentTerms(t, d);
      assert terms[..i + 1][j] == terms[j];
    }
    if terms[i] in DocumentTerms(t, d) {
      assert terms[..i + 1][i] == terms[i];
    }
    if Matches(t, d, terms[..i + 1], MatchAny) && terms[i] !in DocumentTerms(t, d) {
      var j :| 0 <= j < i + 1 && terms[..i + 1][j] in DocumentTerms(t, d);
      assert terms[..i][j] == terms[j];
    }
  }

  lemma AllNext(t: Text, d: Document, terms: seq<Str>, i: nat)
    requires i < |terms|
    ensures Matches(t, d, terms[..i + 1], MatchAll) <==>
      Matches(t, d, terms[..i], MatchAll) && terms[i] in DocumentTerms(t, d)
  {
    hide DocumentTerms;
    if Matches(t, d, terms[..i + 1], MatchAll) {
      assert terms[..i + 1][i] == terms[i];
      forall j | 0 <= j < i ensures terms[..i][j] in DocumentTerms(t, d) {
        assert terms[..i + 1][j] == terms[j];
      }
    }
    if Matches(t, d, terms[..i], MatchAll) && terms[i] in DocumentTerms(t, d) {
      var next := terms[..i + 1];
      forall j | 0 <= j < |next| ensures next[j] in DocumentTerms(t, d) {
        assert j < i ==> terms[..i][j] == terms[j];
      }
    }
  }

  lemma NoTermsAny(t: Text, docs: Image, terms: seq<Str>)
    requires terms == []
    ensures Matching(t, docs, terms, MatchAny) == {}
  {
  }

  lemma MatchedBefore(t: Text, docs: Image, terms: seq<Str>, i: nat)
    requires i <= |terms|
    ensures Matching(t, docs, terms, MatchAll) <= Matching(t, docs, terms[..i], MatchAll)
  {
    hide DocumentTerms;
    forall id | id in Matching(t, docs, terms, MatchAll) ensures Matches(t, docs[id], terms[..i], MatchAll) {
      forall j | 0 <= j < i ensures terms[..i][j] in DocumentTerms(t, docs[id]) {
        assert terms[..i][j] == terms[j];
      }
    }
  }

  lemma FirstTerm(t: Text, docs: Image, terms: seq<Str>)
    requires terms != []
    ensures Matching(t, docs, terms[..1], MatchAll) == Containing(t, docs, terms[0])
  {
    hide DocumentTerms;
    forall id | id in docs ensures Matches(t, docs[id], terms[..1], MatchAll) <==>
      terms[0] in DocumentTerms(t, docs[id]) {
      assert terms[..1][0] == terms[0];
    }
  }

  // ---------------------------------------------------------------------------
  // Sorting results

  ghost predicate Gathered(t: Text, docs: Image, terms: seq<Str>, results: seq<Result>, done: set<Str>) {
    && DistinctIds(results)
    && (forall i :: 0 <= i < |results| ==>
         results[i].document.id in docs && results[i].document.id in done &&
           results[i] == Scored(t, docs, results[i].document.id, terms))
    && (forall id :: id in done && id in docs ==> Scored(t, docs, id, terms) in results)
  }

  ghost predicate DistinctIds(results: seq<Result>) {
    forall i, j :: 0 <= i < j < |results| ==> results[i].document.id != results[j].document.id
  }

  lemma GatherNext(t: Text, docs: Image, terms: seq<Str>, results: seq<Result>, done: set<Str>, id: Str)
    requires Gathered(t, docs, terms, results, done) && id in docs && id !in done && docs[id].id == id
    ensures Gathered(t, docs, terms, results + [Scored(t, docs, id, terms)], done + {id})
  {
    hide Score;
  }

  lemma GatheredPool(t: Text, docs: Image, terms: seq<Str>, mode: Mode, results: seq<Result>)
    requires terms != [] && Gathered(t, docs, terms, results, Matching(t, docs, terms, mode))
    ensures Elements(results) == Pool(t, docs, terms, mode)
  {
    hide Score, Matches;
    forall r | r in results ensures r in Pool(t, docs, terms, mode) {
      var i :| 0 <= i < |results| && results[i] == r;
      assert r == Scored(t, docs, results[i].document.id, terms);
    }
  }

  lemma SortedResults(results: seq<Result>)
    requires DistinctIds(results)
    ensures StrictlySorted(RankBefore, Sort(RankBefore, results)) &&
      Elements(Sort(RankBefore, results)) == Elements(results)
  {
    hide Less, RankBefore;
    RankOrder();
    SortByKey(RankBefore, IdOf, results);
  }

  function IdOf(r: Result): Str { r.document.id }

  /** How many results a limit allows: zero stands for all. */
  ghost function Allowed(limit: int, pool: set<Result>): nat
    requires limit >= 0
  {
    if limit > 0 then limit else |pool|
  }

  lemma CutIsTop(results: seq<Result>, limit: nat, pool: set<Result>)
    requires StrictlySorted(RankBefore, results) && Elements(results) == pool
    ensures var k := if limit > 0 && |results| > limit then limit else |results|;
      IsTop(RankBefore, results[..k], Allowed(limit, pool), pool)
  {
    hide RankBefore, Less, IsTop;
    RankOrder();
    StrictDistinctResults(results);
    DistinctCard(results);
    StrictPrefixIsTop(RankBefore, results, Allowed(limit, pool));
  }

  lemma StrictDistinctResults(results: seq<Result>)
    requires StrictlySorted(RankBefore, results)
    ensures Distinct(results)
  {
    hide RankBefore, Less;
    RankOrder();
    forall i, j | 0 <= i < j < |results| ensures results[i] != results[j] {
      assert RankBefore(results[i], results[j]);
    }
  }

  // ---------------------------------------------------------------------------
  // The index

  class Index {
    const t: Text
    var documents: Image
    var postings: PostingMap
    var documentTerms: map<Str, set<Str>>
    var lengths: map<Str, Lengths>
    var totalTitleTerms: nat
    var totalBodyTerms: nat

    ghost function Value(): Derived
      reads this
    {
      Derived(postings, documentTerms, lengths, totalTitleTerms, totalBodyTerms)
    }

    /** Everything the index holds is what its documents determine. */
    ghost predicate Valid()
      reads this
    {
      && Belongs(t, documents, Value())
      && (forall id :: id in documents ==> documents[id].id == id && id != [])
    }

    constructor (t: Text)
      ensures Valid() && this.t == t && documents == map[]
    {
      this.t := t;
      documents, postings, documentTerms, lengths := map[], map[], map[], map[];
      totalTitleTerms, totalBodyTerms := 0, 0;
      new;
      assert AllLengths(t, map[]) == map[];
      assert AllTerms(t, map[]) == map[];
    }

    /** Takes a document out of the lists of its terms, one term at a time. */
    method DropPostings(id: Str)
      requires Valid() && id in documents
      modifies this`postings
      ensures postings == Dropped(old(postings), id, DocumentTerms(t, documents[id]))
    {
      hide Dropped, Belongs, Indexed, DocumentTerms;
      var rest := Unfold(id);
      ghost var all := rest;
      TermsListed(t, documents, postings, id);
      NothingDone(t, postings, id, documents[id]);
      assert all - rest == {};
      while rest != {}
        invariant rest <= all
        invariant postings == Dropped(old(postings), id, all - rest)
      {
        var term :| term in rest;
        DroppedNext(old(postings), id, all - rest, term);
        assert all - (rest - {term}) == all - rest + {term};
        postings := postings[term := postings[term] - {id}];
        if postings[term] == map[] {
          postings := postings - {term};
        }
        rest := rest - {term};
      }
      assert all - {} == all;
    }

    method Unfold(id: Str) returns (terms: set<Str>)
      requires Valid() && id in documents
      ensures terms == DocumentTerms(t, documents[id]) && Indexed(t, documents, postings)
    {
      hide Indexed, Sum, DocumentTerms;
      terms := documentTerms[id];
    }

    /** Forgets a document if it is there. */
    method DeleteLocked(id: Str) returns (found: bool)
      requires Valid()
      modifies this
      ensures Valid() && documents == old(documents) - {id} && found == (id in old(documents))
    {
      hide Dropped, Indexed, Sum, DocumentTerms, Belongs;
      if id !in documents {
        assert documents - {id} == documents;
        return false;
      }
      WithoutBelongs(t, documents, Value(), id);
      OwnTerms(t, documents, Value(), id);
      DropPostings(id);
      totalTitleTerms := totalTitleTerms - lengths[id].title;
      totalBodyTerms := totalBodyTerms - lengths[id].body;
      lengths := lengths - {id};
      documentTerms := documentTerms - {id};
      documents := documents - {id};
      return true;
    }

    /** Removes a document and tells whether it was there. */
    method Delete(id: Str) returns (found: bool)
      requires Valid()
      modifies this
      ensures Valid() && documents == old(documents) - {t.trim(id)} && found == (t.trim(id) in old(documents))
    {
      hide Belongs;
      var trimmed := t.trim(id);
      if trimmed == [] {
        assert documents - {[]} == documents;
        return false;
      }
      found := DeleteLocked(trimmed);
    }

    /** Puts a document in the lists of its terms, one term at a time. */
    method AddPostings(d: Document, title: map<Str, nat>, body: map<Str, nat>)
      requires title.Keys == Elements(t.tokenize(d.title)) && body.Keys == Elements(t.tokenize(d.body))
      requires forall x :: x in title ==> title[x] == Frequency(t.tokenize(d.title), x)
      requires forall x :: x in body ==> body[x] == Frequency(t.tokenize(d.body), x)
      modifies this`postings
      ensures postings == Added(t, old(postings), d, DocumentTerms(t, d))
    {
      hide Added, CountsOf, Frequency;
      var rest := title.Keys + body.Keys;
      ghost var all := rest;
      assert all == DocumentTerms(t, d);
      hide DocumentTerms;
      NothingDone(t, postings, d.id, d);
      assert all - rest == {};
      while rest != {}
        invariant rest <= all
        invariant postings == Added(t, old(postings), d, all - rest)
      {
        var term :| term in rest;
        AddedNext(t, old(postings), d, all - rest, term);
        CountsFrom(t, d, title, body, term);
        assert all - (rest - {term}) == all - rest + {term};
        var list := if term in postings then postings[term] else map[];
        postings := postings[term := list[d.id := Counts(CountIn(title, term), CountIn(body, term))]];
        rest := rest - {term};
      }
      assert all - {} == all;
    }

    /** Adds a document under its trimmed ID, in place of any other with that ID. */
    method Upsert(document: Document) returns (r: Outcome<()>)
      requires Valid()
      modifies this
      ensures Valid() && (r.Success? <==> t.trim(document.id) != []) && (r.Failure? ==> r.error == IdRequired)
      ensures var d := document.(id := t.trim(document.id));
        documents == if r.Success? then old(documents)[d.id := d] else old(documents)
    {
      hide Belongs, DocumentTerms, Added, Frequency, CountIn;
      var d := document.(id := t.trim(document.id));
      if d.id == [] { return Failure(IdRequired); }
      var title := Frequencies(t.tokenize(d.title));
      var body := Frequencies(t.tokenize(d.body));
      var _ := DeleteLocked(d.id);
      Insert(d, title, body);
      return Success(());
    }

    /** Records a document that is not there yet. */
    method Insert(d: Document, title: map<Str, nat>, body: map<Str, nat>)
      requires Valid() && d.id !in documents && d.id != []
      requires title.Keys == Elements(t.tokenize(d.title)) && body.Keys == Elements(t.tokenize(d.body))
      requires forall x :: x in title ==> title[x] == Frequency(t.tokenize(d.title), x)
      requires forall x :: x in body ==> body[x] == Frequency(t.tokenize(d.body), x)
      modifies this
      ensures Valid() && documents == old(documents)[d.id := d]
    {
      hide Belongs, DocumentTerms, Added, Frequency, CountIn;
      ghost var x := Value();
      WithBelongs(t, documents, x, d);
      documents := documents[d.id := d];
      SameTerms(t, d, title.Keys + body.Keys);
      documentTerms := documentTerms[d.id := title.Keys + body.Keys];
      lengths := lengths[d.id := Lengths(|t.tokenize(d.title)|, |t.tokenize(d.body)|)];
      totalTitleTerms := totalTitleTerms + |t.tokenize(d.title)|;
      totalBodyTerms := totalBodyTerms + |t.tokenize(d.body)|;
      AddPostings(d, title, body);
      assert Value() == With(t, x, d);
    }

    /** The documents that contain any or all of the terms. */
    method MatchingDocuments(terms: seq<Str>, mode: Mode) returns (matches: set<Str>)
      requires Valid() && terms != []
      ensures matches == Matching(t, documents, terms, mode)
    {
      hide Indexed, Sum, DocumentTerms, Matching, Containing;
      assert Indexed(t, documents, postings);
      hide Belongs;
      if mode == MatchAny {
        matches := {};
        NoTermsAny(t, documents, terms[..0]);
        for i := 0 to |terms|
          invariant matches == Matching(t, documents, terms[..i], MatchAny)
        {
          MatchingNext(t, documents, terms, i);
          PostingCount(t, documents, postings, terms[i]);
          matches := matches + ListFor(postings, terms[i]).Keys;
        }
        assert terms[..|terms|] == terms;
        return;
      }
      PostingCount(t, documents, postings, terms[0]);
      FirstTerm(t, documents, terms);
      matches := ListFor(postings, terms[0]).Keys;
      for i := 1 to |terms|
        invariant matches == Matching(t, documents, terms[..i], MatchAll)
      {
        MatchingNext(t, documents, terms, i);
        PostingCount(t, documents, postings, terms[i]);
        matches := matches * ListFor(postings, terms[i]).Keys;
        if matches == {} {
          MatchedBefore(t, documents, terms, i + 1);
          break;
        }
        assert i + 1 == |terms| ==> terms[..i + 1] == terms;
      }
      assert matches != {} ==> terms[..|terms|] == terms;
    }

    /** A document's score, from its postings, its lengths and the running totals. */
    method ComputeScore(id: Str, terms: seq<Str>) returns (score: real)
      requires Valid() && id in documents
      ensures score == Score(t, documents, id, terms)
    {
      hide Indexed, Sum, DocumentTerms, TermScore, Containing, CountsOf, LengthsOf, Average;
      var averages := (Average(totalTitleTerms, |documents|), Average(totalBodyTerms, |documents|));
      assert averages == Averages(t, documents);
      assert Indexed(t, documents, postings) && lengths[id] == LengthsOf(t, documents[id]);
      hide Belongs, Averages, AllLengths;
      score := 0.0;
      for i := 0 to |terms|
        invariant score == Score(t, documents, id, terms[..i])
      {
        assert terms[..i + 1][..i] == terms[..i];
        var list := ListFor(postings, terms[i]);
        PostingCount(t, documents, postings, terms[i]);
        PostingFor(t, documents, postings, terms[i], id);
        var counts := if id in list then list[id] else Counts(0, 0);
        score := score + TermScore(t, |documents|, |list|, counts, lengths[id], averages);
      }
      assert terms[..|terms|] == terms;
    }

    /** The matching documents by score and ID, cut to the limit: exactly the top of the brute-force pool. */
    method Search(query: Str, mode: Mode, limit: int) returns (r: Outcome<seq<Result>>)
      requires Valid()
      ensures r.Success? <==> limit >= 0
      ensures r.Failure? ==> r.error == NegativeLimit
      ensures r.Success? ==>
        var pool := Pool(t, documents, Unique(t.tokenize(query)), mode);
        IsTop(RankBefore, r.value, Allowed(limit, pool), pool)
    {
      hide Belongs, RankBefore, Less, Score, Unique, IsTop, Sort, Matches, Gathered;
      if limit < 0 { return Failure(NegativeLimit); }
      var terms := UniqueTerms(t.tokenize(query));
      if |terms| == 0 || documents == map[] {
        EmptyTop(limit);
        assert Pool(t, documents, terms, mode) == {};
        return Success([]);
      }
      var matches := MatchingDocuments(terms, mode);
      var results: seq<Result> := [];
      var rest := matches;
      NothingGathered(t, documents, terms);
      while rest != {}
        invariant rest <= matches && Gathered(t, documents, terms, results, matches - rest)
      {
        var id :| id in rest;
        GatherNext(t, documents, terms, results, matches - rest, id);
        assert matches - (rest - {id}) == matches - rest + {id};
        var score := ComputeScore(id, terms);
        results := results + [Result(documents[id], score)];
        rest := rest - {id};
      }
      assert matches - {} == matches;
      GatheredPool(t, documents, terms, mode, results);
      GatheredDistinct(t, documents, terms, results, matches);
      SortedResults(results);
      results := Sort(RankBefore, results);
      CutIsTop(results, limit, Pool(t, documents, terms, mode));
      if limit > 0 && |results| > limit { return Success(results[..limit]); }
      assert results[..|results|] == results;
      return Success(results);
    }
  }

  lemma OwnTerms(t: Text, docs: Image, x: Derived, id: Str)
    requires Belongs(t, docs, x) && id in docs
    ensures id in x.terms && x.terms[id] == DocumentTerms(t, docs[id])
  {
    hide Indexed, Sum, DocumentTerms;
  }

  lemma SameTerms(t: Text, d: Document, terms: set<Str>)
    requires terms == Elements(t.tokenize(d.title)) + Elements(t.tokenize(d.body))
    ensures terms == DocumentTerms(t, d)
  {
  }

  lemma PostingFor(t: Text, docs: Image, postings: PostingMap, term: Str, id: Str)
    requires Indexed(t, docs, postings) && id in docs
    ensures var list := ListFor(postings, term);
      (if id in list then list[id] else Counts(0, 0)) == CountsOf(t, docs[id], term)
  {
    FrequencyOfToken(t.tokenize(docs[id].title), term);
    FrequencyOfToken(t.tokenize(docs[id].body), term);
    hide Frequency;
    assert Listed(postings, term, id) <==> id in ListFor(postings, term);
  }

  lemma EmptyTop(limit: nat)
    ensures IsTop(RankBefore, [], Allowed(limit, {}), {})
  {
  }

  lemma NothingGathered(t: Text, docs: Image, terms: seq<Str>)
    ensures forall done: set<Str> :: done == {} ==> Gathered(t, docs, terms, [], done)
  {
  }

  lemma GatheredDistinct(t: Text, docs: Image, terms: seq<Str>, results: seq<Result>, done: set<Str>)
    requires Gathered(t, docs, terms, results, done)
    ensures DistinctIds(results)
  {
  }
}
