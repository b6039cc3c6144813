/** How search results are ordered, and what the score rewards, in terms of the tokens themselves. */
module SearchRanking {

  import opened Bytes
  import opened Ordering
  import opened Documents
  import opened Tokens
  import opened SearchIndex

  // ---------------------------------------------------------------------------
  // Order

  ghost predicate Ahead(score: real, id: Str, other: real, second: Str) {
    score > other || (score == other && Less(id, second))
  }

  /** Results that are the top of the matching documents come in order of falling score with ties by ID, each with the
      score of its document, and no matching document that is left out belongs before one that is listed. */
  lemma ResultsRank(t: Text, docs: Image, terms: seq<Str>, mode: Mode, r: seq<Result>, limit: nat)
    requires terms != [] && KeyedById(docs) && IsTop(RankBefore, r, limit, Pool(t, docs, terms, mode))
    ensures |r| == Min(limit, |Matching(t, docs, terms, mode)|)
    ensures forall i :: 0 <= i < |r| ==>
      && r[i].document.id in Matching(t, docs, terms, mode) && r[i].document == docs[r[i].document.id]
      && r[i].score == Score(t, docs, r[i].document.id, terms)
    ensures forall i, j :: 0 <= i < j < |r| ==> Ahead(r[i].score, r[i].document.id, r[j].score, r[j].document.id)
    ensures forall id, i ::
      id in Matching(t, docs, terms, mode) && 0 <= i < |r| && (forall j :: 0 <= j < |r| ==> r[j].document.id != id) ==>
        Ahead(r[i].score, r[i].document.id, Score(t, docs, id, terms), id)
  {
    hide Matches, Score, Less;
    PoolSize(t, docs, terms, mode);
    forall i | 0 <= i < |r|
      ensures r[i].document.id in Matching(t, docs, terms, mode) && r[i] == Scored(t, docs, r[i].document.id, terms)
    {
      assert r[i] in Elements(r);
    }
    forall id, i | id in Matching(t, docs, terms, mode) && 0 <= i < |r| &&
        (forall j :: 0 <= j < |r| ==> r[j].document.id != id)
      ensures Ahead(r[i].score, r[i].document.id, Score(t, docs, id, terms), id)
    {
      var y := Scored(t, docs, id, terms);
      assert y in Pool(t, docs, terms, mode) && y !in r;
      assert r[i] in r;
      assert RankBefore(r[i], y);
    }
  }

  ghost predicate KeyedById(docs: Image) {
    forall id :: id in docs ==> docs[id].id == id
  }

  ghost function Results(t: Text, docs: Image, terms: seq<Str>, ids: set<Str>): set<Result>
    requires ids <= docs.Keys
  {
    set id | id in ids :: Scored(t, docs, id, terms)
  }

  lemma {:induction false} ResultsSize(t: Text, docs: Image, terms: seq<Str>, ids: set<Str>)
    requires KeyedById(docs) && ids <= docs.Keys
    ensures |Results(t, docs, terms, ids)| == |ids|
  {
    hide Score;
    if ids != {} {
      var id :| id in ids;
      ResultsSize(t, docs, terms, ids - {id});
      assert Results(t, docs, terms, ids) == Results(t, docs, terms, ids - {id}) + {Scored(t, docs, id, terms)};
    }
  }

  lemma PoolSize(t: Text, docs: Image, terms: seq<Str>, mode: Mode)
    requires terms != [] && KeyedById(docs)
    ensures |Pool(t, docs, terms, mode)| == |Matching(t, docs, terms, mode)|
  {
    hide Score, Matches;
    ResultsSize(t, docs, terms, Matching(t, docs, terms, mode));
    assert Pool(t, docs, terms, mode) == Results(t, docs, terms, Matching(t, docs, terms, mode));
  }

  ghost predicate HasTerm(t: Text, d: Document, term: Str) {
    term in t.tokenize(d.title) || term in t.tokenize(d.body)
  }

  /** A document matches all terms when its title or body has each, and any when it has one of them. */
  lemma MatchesIff(t: Text, d: Document, terms: seq<Str>)
    ensures Matches(t, d, terms, MatchAll) <==> forall i :: 0 <= i < |terms| ==> HasTerm(t, d, terms[i])
    ensures Matches(t, d, terms, MatchAny) <==> exists i :: 0 <= i < |terms| && HasTerm(t, d, terms[i])
  {
    forall i | 0 <= i < |terms| ensures terms[i] in DocumentTerms(t, d) <==> HasTerm(t, d, terms[i]) {}
  }

  // ---------------------------------------------------------------------------
  // Saturation

  /** How strongly a field's length counts: one at the average, a quarter for an empty field. Without an average the
      length counts as it is. */
  function LengthFactor(length: nat, average: real): (r: real)
    requires average >= 0.0
    ensures r >= 0.25
  {
    var base := if average == 0.0 then 1.0 else average;
    Quotient(length as real, base);
    0.25 + 0.75 * (length as real / base)
  }

  /** The weight of `frequency` occurrences: nothing for none, and otherwise less than 2.2. */
  lemma FrequencyShare(frequency: nat, length: nat, average: real)
    requires average >= 0.0
    ensures var w := NormalizedFrequency(frequency, length, average);
      && w * (frequency as real + 1.2 * LengthFactor(length, average)) == 2.2 * frequency as real
      && 0.0 <= w < 2.2 && (w == 0.0 <==> frequency == 0)
  {
    var f, k := frequency as real, LengthFactor(length, average);
    if frequency > 0 {
      Shares(f, k);
    }
  }

  lemma Shares(f: real, k: real)
    requires f > 0.0 && k >= 0.25
    ensures var w := f * 2.2 / (f + 1.2 * k); w * (f + 1.2 * k) == 2.2 * f && 0.0 < w < 2.2
  {
    var d := f + 1.2 * k;
    var w := f * 2.2 / d;
    assert w * d == f * 2.2;
    if w <= 0.0 { TimesAtMost(w, 0.0, d); }
    if w >= 2.2 { TimesAtMost(2.2, w, d); }
  }

  lemma TimesAtMost(a: real, b: real, d: real)
    requires a <= b && d >= 0.0
    ensures a * d <= b * d
  {
  }

  lemma TimesLess(a: real, b: real, d: real)
    requires a < b && d > 0.0
    ensures a * d < b * d
  {
  }

  /** More occurrences weigh more, and a longer field makes each weigh less. */
  lemma FrequencyGrows(f: nat, g: nat, length: nat, longer: nat, average: real)
    requires average >= 0.0 && f < g && length < longer
    ensures NormalizedFrequency(f, length, average) < NormalizedFrequency(g, length, average)
    ensures NormalizedFrequency(g, longer, average) < NormalizedFrequency(g, length, average)
  {
    hide NormalizedFrequency;
    FrequencyShare(f, length, average);
    FrequencyShare(g, length, average);
    FrequencyShare(g, longer, average);
    var k, m := LengthFactor(length, average), LengthFactor(longer, average);
    FactorGrows(length, longer, average);
    hide LengthFactor;
    var w := NormalizedFrequency(g, length, average);
    MoreShare(f as real, g as real, k, NormalizedFrequency(f, length, average), w);
    LessShare(g as real, k, m, w, NormalizedFrequency(g, longer, average));
  }

  lemma FactorGrows(length: nat, longer: nat, average: real)
    requires average >= 0.0 && length < longer
    ensures LengthFactor(length, average) < LengthFactor(longer, average)
  {
    var base := if average == 0.0 then 1.0 else average;
    var x, y := length as real / base, longer as real / base;
    assert x * base == length as real && y * base == longer as real;
    if x >= y { TimesAtMost(y, x, base); }
  }

  lemma MoreShare(f: real, g: real, k: real, v: real, w: real)
    requires 0.0 <= f < g && k >= 0.25 && v < 2.2
    requires v * (f + 1.2 * k) == 2.2 * f && w * (g + 1.2 * k) == 2.2 * g
    ensures v < w
  {
    if w <= v {
      TimesAtMost(w, v, g + 1.2 * k);
      assert v * (g + 1.2 * k) == v * (f + 1.2 * k) + v * (g - f);
      TimesLess(v, 2.2, g - f);
    }
  }

  lemma LessShare(g: real, k: real, m: real, v: real, w: real)
    requires g > 0.0 && 0.25 <= k < m && v > 0.0
    requires v * (g + 1.2 * k) == 2.2 * g && w * (g + 1.2 * m) == 2.2 * g
    ensures w < v
  {
    if v <= w {
      TimesAtMost(v, w, g + 1.2 * m);
      assert v * (g + 1.2 * m) == v * (g + 1.2 * k) + v * (1.2 * (m - k));
      TimesLess(0.0, v, 1.2 * (m - k));
    }
  }

  // ---------------------------------------------------------------------------
  // Scores

  /** The rarer a term, the larger the number whose logarithm it is weighted by; a title counts two and a half times a
      body. */
  lemma TermWeight(t: Text, total: nat, containing: nat, c: Counts, l: Lengths, averages: (real, real))
    requires averages.0 >= 0.0 && averages.1 >= 0.0
    ensures TermScore(t, total, containing, c, l, averages) ==
      t.log((total as real + 1.0) / (containing as real + 0.5)) *
      (2.5 * NormalizedFrequency(c.title, l.title, averages.0) + NormalizedFrequency(c.body, l.body, averages.1))
  {
    hide NormalizedFrequency;
    Rarity(total as real, containing as real);
  }

  lemma Rarity(total: real, containing: real)
    requires containing >= 0.0
    ensures 1.0 + (total - containing + 0.5) / (containing + 0.5) == (total + 1.0) / (containing + 0.5)
  {
    var d := containing + 0.5;
    var q := (total - containing + 0.5) / d;
    assert q * d == total - containing + 0.5;
    assert (1.0 + q) * d == total + 1.0;
    var r := (total + 1.0) / d;
    assert r * d == total + 1.0;
    Cancel(1.0 + q, r, d);
  }

  lemma Cancel(a: real, b: real, d: real)
    requires d > 0.0 && a * d == b * d
    ensures a == b
  {
    if a < b { TimesLess(a, b, d); }
    if b < a { TimesLess(b, a, d); }
  }

  /** The score of a document for a query is the sum over its terms of what each term scores alone. */
  lemma ScoreAddsUp(t: Text, docs: Image, id: Str, terms: seq<Str>, term: Str)
    requires id in docs
    ensures Score(t, docs, id, []) == 0.0
    ensures Score(t, docs, id, terms + [term]) == Score(t, docs, id, terms) + Score(t, docs, id, [term])
  {
    hide TermScore, Averages, Containing, CountsOf, LengthsOf;
    assert (terms + [term])[..|terms|] == terms;
    assert [term][..0] == [];
    assert Score(t, docs, id, [term]) == Score(t, docs, id, []) +
      TermScore(t, |docs|, |Containing(t, docs, term)|, CountsOf(t, docs[id], term), LengthsOf(t, docs[id]),
        Averages(t, docs));
  }

  /** The documents a term occurs in, in the title or the body. */
  ghost function Having(t: Text, docs: Image, term: Str): set<Str> {
    set x | x in docs && (term in t.tokenize(docs[x].title) || term in t.tokenize(docs[x].body))
  }

  /** What a term scores alone depends on nothing but the tokens: how often it occurs in the document's title and body,
      how long these are, how long they are on average, and how many documents have it. */
  lemma ScoreOfTerm(t: Text, docs: Image, id: Str, term: Str)
    requires id in docs
    ensures var title, body := t.tokenize(docs[id].title), t.tokenize(docs[id].body);
      Score(t, docs, id, [term]) ==
        t.log((|docs| as real + 1.0) / (|Having(t, docs, term)| as real + 0.5)) *
        (2.5 * NormalizedFrequency(multiset(title)[term], |title|, Averages(t, docs).0) +
         NormalizedFrequency(multiset(body)[term], |body|, Averages(t, docs).1))
  {
    hide NormalizedFrequency, Averages, TermScore;
    assert [term][..0] == [] && Score(t, docs, id, []) == 0.0;
    assert Score(t, docs, id, [term]) == Score(t, docs, id, []) +
      TermScore(t, |docs|, |Containing(t, docs, term)|, CountsOf(t, docs[id], term), LengthsOf(t, docs[id]),
        Averages(t, docs));
    assert Having(t, docs, term) == Containing(t, docs, term);
    hide Score, Containing, Having;
    TermWeight(t, |docs|, |Containing(t, docs, term)|, CountsOf(t, docs[id], term), LengthsOf(t, docs[id]),
      Averages(t, docs));
  }

  lemma AverageTimes(sum: nat, count: nat)
    requires count > 0
    ensures Average(sum, count) * count as real == sum as real
  {
  }

  /** Each document adds its own tokens to the totals the averages are taken from. */
  lemma TotalsWith(t: Text, docs: Image, id: Str, d: Document)
    requires id !in docs
    ensures Sum(AllLengths(t, docs[id := d]), TitleOf) == Sum(AllLengths(t, docs), TitleOf) + |t.tokenize(d.title)|
    ensures Sum(AllLengths(t, docs[id := d]), BodyOf) == Sum(AllLengths(t, docs), BodyOf) + |t.tokenize(d.body)|
    ensures Sum(AllLengths(t, map[]), TitleOf) == Sum(AllLengths(t, map[]), BodyOf) == 0
  {
    assert AllLengths(t, map[]) == map[];
    assert Sum(map[], TitleOf) == Sum(map[], BodyOf) == 0;
    hide Sum;
    assert AllLengths(t, docs[id := d]) == AllLengths(t, docs)[id := LengthsOf(t, d)];
    SumWith(AllLengths(t, docs), TitleOf, id, LengthsOf(t, d));
    SumWith(AllLengths(t, docs), BodyOf, id, LengthsOf(t, d));
  }

  /** An average is what, times the number of documents, gives all their tokens. */
  lemma AveragesTimes(t: Text, docs: Image)
    requires docs != map[]
    ensures Averages(t, docs).0 * |docs| as real == Sum(AllLengths(t, docs), TitleOf) as real
    ensures Averages(t, docs).1 * |docs| as real == Sum(AllLengths(t, docs), BodyOf) as real
  {
    hide Average, Sum, AllLengths;
    AverageTimes(Sum(AllLengths(t, docs), TitleOf), |docs|);
    AverageTimes(Sum(AllLengths(t, docs), BodyOf), |docs|);
  }
}
