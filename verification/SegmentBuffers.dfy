/** The encoder's buffer loops and the decoder's reader loops, refining the segment format functions. */
module SegmentBuffers {

  import opened Bytes
  import opened Ordering
  import opened Encoding
  import opened Documents
  import opened Tokens
  import opened SegmentCodec
  import opened SegmentFile

  /** Postings with some of a document's terms already appended. */
  ghost predicate Partly(kit: Kit, before: Postings, e: Entry, ordinal: nat, done: set<Str>, postings: Postings) {
    && postings.Keys == before.Keys + done
    && forall t :: t in postings ==>
         postings[t] == ListFor(before, t) + (if t in done then [PostingFor(kit, e, ordinal, t)] else [])
  }

  lemma PartlyNext(kit: Kit, before: Postings, e: Entry, ordinal: nat, done: set<Str>, postings: Postings, term: Str)
    requires Partly(kit, before, e, ordinal, done, postings) && term !in done
    ensures Partly(kit, before, e, ordinal, done + {term},
      postings[term := ListFor(postings, term) + [PostingFor(kit, e, ordinal, term)]])
  {
    hide PostingFor;
    var next := postings[term := ListFor(postings, term) + [PostingFor(kit, e, ordinal, term)]];
    assert ListFor(postings, term) == ListFor(before, term);
    assert forall t :: t in next && t != term ==> t in postings && next[t] == postings[t];
  }

  lemma PartlyDone(kit: Kit, before: Postings, e: Entry, ordinal: nat, postings: Postings)
    requires Partly(kit, before, e, ordinal, TermsOf(kit, e), postings)
    ensures postings == WithEntry(kit, before, e, ordinal)
  {
    hide PostingFor, TermsOf;
  }

  lemma PartlyNone(kit: Kit, before: Postings, e: Entry, ordinal: nat)
    ensures Partly(kit, before, e, ordinal, {}, before)
  {
    assert forall t :: t in before ==> ListFor(before, t) + [] == before[t];
  }

  lemma PostingCounted(kit: Kit, e: Entry, ordinal: nat, titles: map<Str, nat>, bodies: map<Str, nat>, term: Str)
    requires titles.Keys == Elements(kit.tokenize(e.document.title)) &&
      bodies.Keys == Elements(kit.tokenize(e.document.body))
    requires forall t :: t in titles ==> titles[t] == Frequency(kit.tokenize(e.document.title), t)
    requires forall t :: t in bodies ==> bodies[t] == Frequency(kit.tokenize(e.document.body), t)
    ensures Posting(ordinal, CountIn(titles, term), CountIn(bodies, term)) == PostingFor(kit, e, ordinal, term)
  {
    FrequencyOfToken(kit.tokenize(e.document.title), term);
    FrequencyOfToken(kit.tokenize(e.document.body), term);
    hide Frequency;
  }

  /** Appends one document's postings, its terms in any order. */
  method AppendPostings(kit: Kit, before: Postings, e: Entry, ordinal: nat) returns (postings: Postings)
    requires !e.deleted
    ensures postings == WithEntry(kit, before, e, ordinal)
  {
    var titles := Frequencies(kit.tokenize(e.document.title));
    var bodies := Frequencies(kit.tokenize(e.document.body));
    var terms := titles.Keys + bodies.Keys;
    assert terms == TermsOf(kit, e);
    hide Partly, TermsOf, WithEntry, ListFor, Frequency, PostingFor, CountIn;
    postings := before;
    var pending := terms;
    PartlyNone(kit, before, e, ordinal);
    assert terms - pending == {};
    while pending != {}
      invariant pending <= terms && Partly(kit, before, e, ordinal, terms - pending, postings)
    {
      var term :| term in pending;
      PostingCounted(kit, e, ordinal, titles, bodies, term);
      var p := Posting(ordinal, CountIn(titles, term), CountIn(bodies, term));
      PartlyNext(kit, before, e, ordinal, terms - pending, postings, term);
      postings := postings[term := ListFor(postings, term) + [p]];
      assert terms - (pending - {term}) == (terms - pending) + {term};
      pending := pending - {term};
    }
    assert terms - {} == terms;
    PartlyDone(kit, before, e, ordinal, postings);
  }

  method CollectPostings(kit: Kit, entries: seq<Entry>) returns (postings: Postings)
    ensures postings == BuildPostings(kit, entries)
  {
    postings := map[];
    for i := 0 to |entries|
      invariant postings == BuildPostings(kit, entries[..i])
    {
      assert entries[..i + 1][..i] == entries[..i];
      if entries[i].deleted {
        NothingToAdd(kit, postings, entries[i], i);
      } else {
        postings := AppendPostings(kit, postings, entries[i], i);
      }
    }
    assert entries[..|entries|] == entries;
  }

  lemma NothingToAdd(kit: Kit, postings: Postings, e: Entry, ordinal: nat)
    requires e.deleted
    ensures WithEntry(kit, postings, e, ordinal) == postings
  {
    PartlyNone(kit, postings, e, ordinal);
    PartlyDone(kit, postings, e, ordinal, postings);
  }

  method CheckAccepted(kit: Kit, sorted: seq<Entry>) returns (ok: bool)
    ensures ok == Accepted(kit, sorted)
  {
    for i := 0 to |sorted|
      invariant Accepted(kit, sorted[..i])
    {
      if kit.trim(sorted[i].document.id) == [] { return false; }
      if i > 0 && sorted[i - 1].document.id == sorted[i].document.id { return false; }
      TakeNext(sorted, i);
    }
    assert sorted[..|sorted|] == sorted;
    return true;
  }

  method WriteEntry(buffer: seq<Byte>, e: Entry) returns (r: seq<Byte>)
    ensures r == buffer + EntryBytes(e)
  {
    hide PutString;
    r := buffer + [if e.deleted then DELETED else PRESENT];
    r := r + PutString(e.document.id);
    if !e.deleted {
      r := r + PutString(e.document.title);
      r := r + PutString(e.document.body);
    }
  }

  method WriteEntries(buffer: seq<Byte>, entries: seq<Entry>) returns (r: seq<Byte>)
    ensures r == buffer + EntriesBytes(entries)
  {
    hide EntryBytes;
    r := buffer;
    for i := 0 to |entries|
      invariant r + EntriesBytes(entries[i..]) == buffer + EntriesBytes(entries)
    {
      ghost var before := r;
      r := WriteEntry(r, entries[i]);
      EntriesStep(before, entries, i);
    }
    assert entries[|entries|..] == [];
  }

  lemma EntriesStep(buffer: seq<Byte>, entries: seq<Entry>, i: nat)
    requires i < |entries|
    ensures buffer + EntriesBytes(entries[i..]) == buffer + EntryBytes(entries[i]) + EntriesBytes(entries[i + 1..])
  {
    hide EntryBytes;
    assert entries[i..][1..] == entries[i + 1..];
  }

  lemma PostingsStep(buffer: seq<Byte>, list: seq<Posting>, i: nat)
    requires i < |list|
    ensures buffer + PostingsBytes(list[..i], list[i..]) ==
      buffer + PostingBytes(list[..i], list[i]) + PostingsBytes(list[..i + 1], list[i + 1..])
  {
    hide PostingBytes;
    TakeNext(list, i);
    assert list[i..][1..] == list[i + 1..];
  }

  method WritePostings(buffer: seq<Byte>, list: seq<Posting>) returns (r: seq<Byte>)
    requires forall i :: 0 < i < |list| ==> list[i - 1].ordinal < list[i].ordinal
    ensures r == buffer + PostingsBytes([], list)
  {
    r := buffer;
    var previous := 0;
    for i := 0 to |list|
      invariant i > 0 ==> previous == list[i - 1].ordinal
      invariant r + PostingsBytes(list[..i], list[i..]) == buffer + PostingsBytes([], list)
    {
      hide PutUvarint, PostingsBytes;
      var p := list[i];
      ghost var before := r;
      PostingsStep(r, list, i);
      var delta := p.ordinal;
      if i > 0 { delta := delta - previous; }
      assert delta == Delta(list[..i], p);
      r := r + PutUvarint(delta);
      r := r + PutUvarint(p.title);
      r := r + PutUvarint(p.body);
      assert r == before + PostingBytes(list[..i], p);
      previous := p.ordinal;
    }
    assert list[|list|..] == [];
  }

  /** Encodes records: sorts and checks them, then writes them and their postings to a buffer. */
  method Encode(kit: Kit, entries: seq<Entry>) returns (r: Result<seq<Byte>>)
    ensures r == EncodePayload(kit, entries)
  {
    hide Sort, Accepted, BuildPostings, TermList, EntriesBytes, TermsBytes, PutUvarint, Ascending;
    var sorted := Sort(ById, entries);
    var ok := CheckAccepted(kit, sorted);
    if !ok { return Err(Invalid); }
    var postings := CollectPostings(kit, sorted);
    var payload := PutUvarint(|sorted|);
    payload := WriteEntries(payload, sorted);
    var terms := SortedKeys(postings.Keys);
    payload := payload + PutUvarint(|terms|);
    payload := WriteTerms(kit, payload, sorted, postings, terms);
    assert payload == PayloadBytes(sorted, TermList(postings));
    if |payload| > MAX_PAYLOAD { return Err(Invalid); }
    return Ok(payload);
  }

  method WriteTerm(kit: Kit, buffer: seq<Byte>, sorted: seq<Entry>, t: Term) returns (r: seq<Byte>)
    requires t.term in BuildPostings(kit, sorted) && t.postings == BuildPostings(kit, sorted)[t.term]
    ensures r == buffer + TermBytes(t)
  {
    TermPostingsAscend(kit, sorted, t.term);
    hide PutString, PutUvarint, PostingsBytes, BuildPostings;
    r := buffer + PutString(t.term);
    r := r + PutUvarint(|t.postings|);
    r := WritePostings(r, t.postings);
  }

  method WriteTerms(kit: Kit, buffer: seq<Byte>, sorted: seq<Entry>, postings: Postings, terms: seq<Str>)
      returns (r: seq<Byte>)
    requires postings == BuildPostings(kit, sorted) && terms == Ascending(postings.Keys)
    ensures r == buffer + TermsBytes(TermList(postings))
  {
    hide Ascending, BuildPostings, TermList, TermBytes;
    r := buffer;
    ghost var list := TermList(postings);
    for i := 0 to |terms|
      invariant r + TermsBytes(list[i..]) == buffer + TermsBytes(list)
    {
      assert list[i].term in postings && list[i] == Term(terms[i], postings[terms[i]]);
      ghost var before := r;
      r := WriteTerm(kit, r, sorted, Term(terms[i], postings[terms[i]]));
      TermsStep(before, list, i);
    }
    assert list[|list|..] == [];
  }

  lemma TermsStep(buffer: seq<Byte>, terms: seq<Term>, i: nat)
    requires i < |terms|
    ensures buffer + TermsBytes(terms[i..]) == buffer + TermBytes(terms[i]) + TermsBytes(terms[i + 1..])
  {
    hide TermBytes;
    assert terms[i..][1..] == terms[i + 1..];
  }

  lemma TermPostingsAscend(kit: Kit, sorted: seq<Entry>, term: Str)
    requires term in BuildPostings(kit, sorted)
    ensures forall i :: 0 < i < |BuildPostings(kit, sorted)[term]| ==>
      BuildPostings(kit, sorted)[term][i - 1].ordinal < BuildPostings(kit, sorted)[term][i].ordinal
  {
    BuildIsPerTerm(kit, sorted, term);
    PostingListValid(kit, sorted, term);
    hide BuildPostings, PostingList;
  }

  // ---------------------------------------------------------------------------
  // Reading

  method DecodeEntries(kit: Kit, input: seq<Byte>, count: nat) returns (r: Read<seq<Entry>>)
    ensures r == ReadEntries(kit, input, count, [])
  {
    hide ReadEntry;
    var entries: seq<Entry> := [];
    var rest := input;
    for position := 0 to count
      invariant ReadEntries(kit, rest, count - position, entries) == ReadEntries(kit, input, count, [])
    {
      var e := ReadEntry(kit, rest, entries);
      if e.Fail? { return Fail; }
      entries, rest := entries + [e.value], e.rest;
    }
    return Got(entries, rest);
  }

  method DecodePostings(input: seq<Byte>, entries: seq<Entry>, count: nat) returns (r: Read<seq<Posting>>)
    ensures r == ReadPostings(input, entries, count, [])
  {
    hide ReadUvarint;
    var list: seq<Posting> := [];
    var previous: nat := 0;
    var rest := input;
    for position := 0 to count
      invariant |list| == position && (position > 0 ==> previous == list[position - 1].ordinal)
      invariant ReadPostings(rest, entries, count - position, list) == ReadPostings(input, entries, count, [])
    {
      var delta := ReadUvarint(rest);
      if delta.Fail? { return Fail; }
      var ordinal := delta.value;
      if position > 0 {
        if delta.value >= UINT64 - previous { return Fail; }
        ordinal := previous + delta.value;
        if ordinal <= previous { return Fail; }
      }
      if ordinal >= |entries| || entries[ordinal].deleted { return Fail; }
      var title := ReadUvarint(delta.rest);
      if title.Fail? { return Fail; }
      var body := ReadUvarint(title.rest);
      if body.Fail? { return Fail; }
      if title.value == 0 && body.value == 0 { return Fail; }
      var p := Posting(ordinal, title.value, body.value);
      assert ReadPosting(rest, entries, list) == Got(p, body.rest);
      list, rest, previous := list + [p], body.rest, ordinal;
    }
    return Got(list, rest);
  }

  method DecodeTerms(input: seq<Byte>, entries: seq<Entry>, count: nat) returns (r: Read<seq<Term>>)
    ensures r == ReadTerms(input, entries, count, [])
  {
    hide ReadString, ReadUvarint, ReadPostings, Less;
    var terms: seq<Term> := [];
    var previousTerm: Str := [];
    var rest := input;
    for position := 0 to count
      invariant |terms| == position && (position > 0 ==> previousTerm == terms[position - 1].term)
      invariant ReadTerms(rest, entries, count - position, terms) == ReadTerms(input, entries, count, [])
    {
      var term := ReadString(rest, MAX_STRING);
      if term.Fail? { return Fail; }
      if term.value == [] || (position > 0 && !Less(previousTerm, term.value)) { return Fail; }
      var counted := ReadUvarint(term.rest);
      if counted.Fail? || counted.value > |entries| { return Fail; }
      var list := DecodePostings(counted.rest, entries, counted.value);
      if list.Fail? { return Fail; }
      var t := Term(term.value, list.value);
      assert ReadTerm(rest, entries, terms) == Got(t, list.rest);
      terms, rest, previousTerm := terms + [t], list.rest, term.value;
    }
    return Got(terms, rest);
  }

  /** Decodes a payload from start to end. */
  method Decode(kit: Kit, payload: seq<Byte>) returns (r: Result<Segment>)
    ensures r == DecodePayload(kit, payload)
  {
    hide ReadUvarint, ReadEntries, ReadTerms;
    var entryCount := ReadUvarint(payload);
    if entryCount.Fail? || entryCount.value > MAX_RECORDS { return Err(Invalid); }
    var entries := DecodeEntries(kit, entryCount.rest, entryCount.value);
    if entries.Fail? { return Err(Invalid); }
    var termCount := ReadUvarint(entries.rest);
    if termCount.Fail? || termCount.value > MAX_TERMS { return Err(Invalid); }
    var terms := DecodeTerms(termCount.rest, entries.value, termCount.value);
    if terms.Fail? || terms.rest != [] { return Err(Invalid); }
    var postings: Postings := map[];
    for i := 0 to |terms.value|
      invariant postings == TermMap(terms.value[..i])
    {
      assert terms.value[..i + 1][..i] == terms.value[..i];
      postings := postings[terms.value[i].term := terms.value[i].postings];
    }
    assert terms.value[..|terms.value|] == terms.value;
    return Ok(Segment(entries.value, postings));
  }
}
