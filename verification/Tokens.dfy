/** Counting the tokens of a text. */
module Tokens {

  import opened Bytes
  import opened Ordering

  function Frequency(tokens: seq<Str>, term: Str): nat {
    multiset(tokens)[term]
  }

  lemma FrequencyOfToken(tokens: seq<Str>, term: Str)
    ensures Frequency(tokens, term) > 0 <==> term in tokens
    ensures Frequency(tokens, term) <= |tokens|
  {
    assert term in tokens <==> term in multiset(tokens);
    assert multiset(tokens)[term] <= |multiset(tokens)|;
  }

  /** Counts tokens one by one. */
  method Frequencies(tokens: seq<Str>) returns (counts: map<Str, nat>)
    ensures counts.Keys == Elements(tokens)
    ensures forall t :: t in counts ==> counts[t] == Frequency(tokens, t)
  {
    counts := map[];
    for i := 0 to |tokens|
      invariant counts.Keys == Elements(tokens[..i])
      invariant forall t :: t in counts ==> counts[t] == Frequency(tokens[..i], t)
    {
      var t := tokens[i];
      TakeNext(tokens, i);
      ElementsSnoc(tokens[..i], t);
      assert multiset(tokens[..i] + [t]) == multiset(tokens[..i]) + multiset{t};
      FrequencyOfToken(tokens[..i], t);
      counts := counts[t := (if t in counts then counts[t] else 0) + 1];
    }
    assert tokens[..|tokens|] == tokens;
  }

  function CountIn(counts: map<Str, nat>, term: Str): nat {
    if term in counts then counts[term] else 0
  }
}
