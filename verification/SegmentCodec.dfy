/** The bytes of an immutable segment: sorted records and the term postings built from them. */
module SegmentCodec {

  import opened Bytes
  import opened Ordering
  import opened Wrappers
  import opened Encoding
  import opened Documents
  import opened Tokens

  const MAX_PAYLOAD: nat := 0x2000_0000
  const MAX_STRING: nat := 0x100_0000
  const MAX_RECORDS: nat := 10_000_000
  const MAX_TERMS: nat := 50_000_000
  const PRESENT: Byte := 0
  const DELETED: Byte := 1

  /** Tokenizing, trimming and the payload checksum, as whatever functions they are. */
  datatype Kit = Kit(tokenize: Str -> seq<Str>, trim: Str -> Str, checksum: seq<Byte> -> seq<Byte>)

  /** Tokens are not empty, a text's tokens can be counted in 64 bits, and a checksum has 32 bytes. */
  ghost predicate ValidKit(kit: Kit) {
    && (forall text, token :: token in kit.tokenize(text) ==> token != [])
    && (forall text :: |kit.tokenize(text)| < UINT64)
    && (forall s :: |kit.checksum(s)| == 32)
  }

  /** A document as a segment stores it: present, or a tombstone. */
  datatype Entry = Entry(document: Document, deleted: bool)

  datatype Posting = Posting(ordinal: nat, title: nat, body: nat)

  datatype Term = Term(term: Str, postings: seq<Posting>)

  type Postings = map<Str, seq<Posting>>

  datatype Segment = Segment(entries: seq<Entry>, postings: Postings)

  // ---------------------------------------------------------------------------
  // Postings

  /** The terms of a document; a tombstone has none. */
  function TermsOf(kit: Kit, e: Entry): set<Str> {
    if e.deleted then {} else Elements(kit.tokenize(e.document.title)) + Elements(kit.tokenize(e.document.body))
  }

  function PostingFor(kit: Kit, e: Entry, ordinal: nat, term: Str): Posting {
    Posting(ordinal, Frequency(kit.tokenize(e.document.title), term), Frequency(kit.tokenize(e.document.body), term))
  }

  function ListFor(postings: Postings, term: Str): seq<Posting> {
    if term in postings then postings[term] else []
  }

  /** Postings with one more document's terms at the end of their lists. */
  function WithEntry(kit: Kit, postings: Postings, e: Entry, ordinal: nat): Postings {
    map term | term in postings.Keys + TermsOf(kit, e) ::
      ListFor(postings, term) + (if term in TermsOf(kit, e) then [PostingFor(kit, e, ordinal, term)] else [])
  }

  function BuildPostings(kit: Kit, entries: seq<Entry>): Postings {
    if entries == [] then map[]
    else WithEntry(kit, BuildPostings(kit, entries[..|entries| - 1]), entries[|entries| - 1], |entries| - 1)
  }

  /** A posting list as every reader may rely on it: ascending ordinals of present documents, with some occurrence. */
  ghost predicate ValidPostings(entries: seq<Entry>, list: seq<Posting>) {
    && (forall i :: 0 <= i < |list| ==>
          && list[i].ordinal < |entries| && !entries[list[i].ordinal].deleted
          && (list[i].title > 0 || list[i].body > 0))
    && (forall i, j :: 0 <= i < j < |list| ==> list[i].ordinal < list[j].ordinal)
  }

  /** What the postings of one term should be: the documents it occurs in, in order, with its counts. */
  function PostingList(kit: Kit, entries: seq<Entry>, term: Str): seq<Posting> {
    if entries == [] then []
    else
      var n, e := |entries| - 1, entries[|entries| - 1];
      PostingList(kit, entries[..n], term) + (if term in TermsOf(kit, e) then [PostingFor(kit, e, n, term)] else [])
  }

  /** Building the postings of all terms at once gives each term exactly its list, and no term an empty one. */
  lemma {:induction false} BuildIsPerTerm(kit: Kit, entries: seq<Entry>, term: Str)
    ensures ListFor(BuildPostings(kit, entries), term) == PostingList(kit, entries, term)
    ensures term in BuildPostings(kit, entries) <==> PostingList(kit, entries, term) != []
  {
    if entries != [] {
      BuildIsPerTerm(kit, entries[..|entries| - 1], term);
      hide TermsOf, PostingFor;
    }
  }

  lemma ValidPostingsExtend(kit: Kit, init: seq<Entry>, e: Entry, list: seq<Posting>, term: Str)
    requires ValidPostings(init, list)
    ensures ValidPostings(init + [e], list)
    ensures term in TermsOf(kit, e) ==> ValidPostings(init + [e], list + [PostingFor(kit, e, |init|, term)])
  {
    FrequencyOfToken(kit.tokenize(e.document.title), term);
    FrequencyOfToken(kit.tokenize(e.document.body), term);
    hide Frequency;
  }

  lemma {:induction false} PostingListValid(kit: Kit, entries: seq<Entry>, term: Str)
    ensures ValidPostings(entries, PostingList(kit, entries, term))
    ensures |PostingList(kit, entries, term)| <= |entries|
  {
    if entries != [] {
      var init, e := entries[..|entries| - 1], entries[|entries| - 1];
      PostingListValid(kit, init, term);
      assert entries == init + [e];
      ValidPostingsExtend(kit, init, e, PostingList(kit, init, term), term);
      hide ValidPostings, TermsOf, PostingFor;
      assert PostingList(kit, init, term) + [] == PostingList(kit, init, term);
    }
  }

  /** A document is listed under a term exactly when the term occurs in it, with the number of times it does. */
  lemma {:induction false} PostingListExact(kit: Kit, entries: seq<Entry>, term: Str, p: Posting)
    ensures p in PostingList(kit, entries, term) <==>
      p.ordinal < |entries| && term in TermsOf(kit, entries[p.ordinal]) &&
        p == PostingFor(kit, entries[p.ordinal], p.ordinal, term)
  {
    if entries != [] {
      PostingListExact(kit, entries[..|entries| - 1], term, p);
      hide TermsOf, Frequency;
    }
  }

  lemma FrequenciesFit(kit: Kit, entries: seq<Entry>, term: Str, p: Posting)
    requires p in PostingList(kit, entries, term)
    ensures p.ordinal < |entries|
    ensures p.title <= |kit.tokenize(entries[p.ordinal].document.title)| &&
      p.body <= |kit.tokenize(entries[p.ordinal].document.body)|
  {
    PostingListExact(kit, entries, term, p);
    FrequencyOfToken(kit.tokenize(entries[p.ordinal].document.title), term);
    FrequencyOfToken(kit.tokenize(entries[p.ordinal].document.body), term);
  }

  // ---------------------------------------------------------------------------
  // Encoding

  predicate ById(left: Entry, right: Entry) {
    Less(left.document.id, right.document.id)
  }

  /** Deletions keep only their ID. */
  function Stripped(e: Entry): Entry {
    if e.deleted then Entry(Document(e.document.id, [], []), true) else e
  }

  function StrippedAll(entries: seq<Entry>): (r: seq<Entry>)
    ensures |r| == |entries| && forall i :: 0 <= i < |r| ==> r[i] == Stripped(entries[i])
  {
    seq(|entries|, i requires 0 <= i < |entries| => Stripped(entries[i]))
  }

  function EntryBytes(e: Entry): seq<Byte> {
    [if e.deleted then DELETED else PRESENT] + PutString(e.document.id) +
    (if e.deleted then [] else PutString(e.document.title) + PutString(e.document.body))
  }

  function EntriesBytes(entries: seq<Entry>): seq<Byte> {
    if entries == [] then [] else EntryBytes(entries[0]) + EntriesBytes(entries[1..])
  }

  /** Ordinals are written as 64-bit differences from the one before; `done` are the postings already written. */
  function Delta(done: seq<Posting>, p: Posting): nat {
    if done == [] then p.ordinal
    else
      var previous := done[|done| - 1].ordinal;
      if previous <= p.ordinal then p.ordinal - previous else (p.ordinal - previous) % UINT64
  }

  function PostingBytes(done: seq<Posting>, p: Posting): seq<Byte> {
    PutUvarint(Delta(done, p)) + PutUvarint(p.title) + PutUvarint(p.body)
  }

  function PostingsBytes(done: seq<Posting>, list: seq<Posting>): seq<Byte>
    decreases |list|
  {
    if list == [] then [] else PostingBytes(done, list[0]) + PostingsBytes(done + [list[0]], list[1..])
  }

  function TermBytes(t: Term): seq<Byte> {
    PutString(t.term) + PutUvarint(|t.postings|) + PostingsBytes([], t.postings)
  }

  function TermsBytes(terms: seq<Term>): seq<Byte> {
    if terms == [] then [] else TermBytes(terms[0]) + TermsBytes(terms[1..])
  }

  function PayloadBytes(entries: seq<Entry>, terms: seq<Term>): seq<Byte> {
    PutUvarint(|entries|) + EntriesBytes(entries) + (PutUvarint(|terms|) + TermsBytes(terms))
  }

  // ---------------------------------------------------------------------------
  // Decoding

  /** One record; `done` are the records before it, whose IDs must all be smaller. */
  function ReadEntry(kit: Kit, s: seq<Byte>, done: seq<Entry>): Read<Entry> {
    if s == [] || (s[0] != PRESENT && s[0] != DELETED) then Fail
    else
      match ReadString(s[1..], MAX_STRING)
      case Fail => Fail
      case Got(id, rest) =>
        if kit.trim(id) == [] || (done != [] && !Less(done[|done| - 1].document.id, id)) then Fail
        else if s[0] == DELETED then Got(Entry(Document(id, [], []), true), rest)
        else
          match ReadString(rest, MAX_STRING)
          case Fail => Fail
          case Got(title, rest) =>
            match ReadString(rest, MAX_STRING)
            case Fail => Fail
            case Got(body, rest) => Got(Entry(Document(id, title, body), false), rest)
  }

  function ReadEntries(kit: Kit, s: seq<Byte>, count: nat, done: seq<Entry>): Read<seq<Entry>>
    decreases count
  {
    if count == 0 then Got(done, s)
    else
      match ReadEntry(kit, s, done)
      case Fail => Fail
      case Got(e, rest) => ReadEntries(kit, rest, count - 1, done + [e])
  }

  function ReadPosting(s: seq<Byte>, entries: seq<Entry>, done: seq<Posting>): Read<Posting> {
    match ReadUvarint(s)
    case Fail => Fail
    case Got(delta, rest) =>
      var previous := if done == [] then 0 else done[|done| - 1].ordinal;
      if done != [] && (previous + delta >= UINT64 || delta == 0) then Fail
      else
        var ordinal := if done == [] then delta else previous + delta;
        if ordinal >= |entries| || entries[ordinal].deleted then Fail
        else
          match ReadUvarint(rest)
          case Fail => Fail
          case Got(title, rest) =>
            match ReadUvarint(rest)
            case Fail => Fail
            case Got(body, rest) =>
              if title == 0 && body == 0 then Fail else Got(Posting(ordinal, title, body), rest)
  }

  function ReadPostings(s: seq<Byte>, entries: seq<Entry>, count: nat, done: seq<Posting>): Read<seq<Posting>>
    decreases count
  {
    if count == 0 then Got(done, s)
    else
      match ReadPosting(s, entries, done)
      case Fail => Fail
      case Got(p, rest) => ReadPostings(rest, entries, count - 1, done + [p])
  }

  function ReadTerm(s: seq<Byte>, entries: seq<Entry>, done: seq<Term>): Read<Term> {
    match ReadString(s, MAX_STRING)
    case Fail => Fail
    case Got(term, rest) =>
      if term == [] || (done != [] && !Less(done[|done| - 1].term, term)) then Fail
      else
        match ReadUvarint(rest)
        case Fail => Fail
        case Got(count, rest) =>
          if count > |entries| then Fail
          else
            match ReadPostings(rest, entries, count, [])
            case Fail => Fail
            case Got(list, rest) => Got(Term(term, list), rest)
  }

  function ReadTerms(s: seq<Byte>, entries: seq<Entry>, count: nat, done: seq<Term>): Read<seq<Term>>
    decreases count
  {
    if count == 0 then Got(done, s)
    else
      match ReadTerm(s, entries, done)
      case Fail => Fail
      case Got(t, rest) => ReadTerms(rest, entries, count - 1, done + [t])
  }

  function TermMap(terms: seq<Term>): Postings {
    if terms == [] then map[]
    else
      var last := terms[|terms| - 1];
      TermMap(terms[..|terms| - 1])[last.term := last.postings]
  }

  datatype Error = Invalid | ChecksumMismatch | UnsupportedVersion

  datatype Result<+T> = Ok(value: T) | Err(error: Error)

  /** The records and terms of a payload, in the order they are stored. */
  function ReadPayload(kit: Kit, s: seq<Byte>): Read<(seq<Entry>, seq<Term>)> {
    match ReadUvarint(s)
    case Fail => Fail
    case Got(entryCount, rest) =>
      if entryCount > MAX_RECORDS then Fail
      else
        match ReadEntries(kit, rest, entryCount, [])
        case Fail => Fail
        case Got(entries, rest) =>
          match ReadUvarint(rest)
          case Fail => Fail
          case Got(termCount, rest) =>
            if termCount > MAX_TERMS then Fail
            else
              match ReadTerms(rest, entries, termCount, [])
              case Fail => Fail
              case Got(terms, rest) => if rest != [] then Fail else Got((entries, terms), rest)
  }

  function DecodePayload(kit: Kit, payload: seq<Byte>): Result<Segment> {
    match ReadPayload(kit, payload)
    case Fail => Err(Invalid)
    case Got((entries, terms), _) => Ok(Segment(entries, TermMap(terms)))
  }

  // ---------------------------------------------------------------------------
  // What is written reads back

  /** Records as the encoder leaves them after sorting: ascending IDs, none blank. */
  ghost predicate ReadyEntries(kit: Kit, entries: seq<Entry>) {
    && StrictlySorted(ById, entries)
    && (forall i :: 0 <= i < |entries| ==> kit.trim(entries[i].document.id) != [])
  }

  /** The lengths a record is written with fit a 64-bit length field. */
  predicate Addressable(e: Entry) {
    |e.document.id| < UINT64 && (e.deleted || (|e.document.title| < UINT64 && |e.document.body| < UINT64))
  }

  /** The strings the decoder will read for a record are within its limit. */
  predicate EntryFits(e: Entry) {
    |e.document.id| <= MAX_STRING &&
      (e.deleted || (|e.document.title| <= MAX_STRING && |e.document.body| <= MAX_STRING))
  }

  lemma EntryRoundTrip(kit: Kit, e: Entry, rest: seq<Byte>, done: seq<Entry>)
    requires Addressable(e) && kit.trim(e.document.id) != []
    requires done != [] ==> Less(done[|done| - 1].document.id, e.document.id)
    ensures ReadEntry(kit, EntryBytes(e) + rest, done) == if EntryFits(e) then Got(Stripped(e), rest) else Fail
  {
    var d := e.document;
    var texts := if e.deleted then [] else PutString(d.title) + PutString(d.body);
    var s := EntryBytes(e) + rest;
    hide PutString, ReadString, Less;
    assert s[1..] == PutString(d.id) + (texts + rest);
    StringRoundTrip(d.id, texts + rest, MAX_STRING);
    if e.deleted {
      assert texts + rest == rest;
    } else {
      assert texts + rest == PutString(d.title) + (PutString(d.body) + rest);
      StringRoundTrip(d.title, PutString(d.body) + rest, MAX_STRING);
      StringRoundTrip(d.body, rest, MAX_STRING);
    }
  }

  /** Each record may follow the ones before it. */
  ghost predicate EntryChain(kit: Kit, previous: Option<Str>, todo: seq<Entry>)
    decreases |todo|
  {
    todo == [] ||
    (&& Addressable(todo[0]) && kit.trim(todo[0].document.id) != []
     && (previous.Some? ==> Less(previous.value, todo[0].document.id))
     && EntryChain(kit, Some(todo[0].document.id), todo[1..]))
  }

  predicate EntriesFit(entries: seq<Entry>) {
    entries == [] || (EntryFits(entries[0]) && EntriesFit(entries[1..]))
  }

  function LastId(done: seq<Entry>): Option<Str> {
    if done == [] then None else Some(done[|done| - 1].document.id)
  }

  lemma {:induction false} EntriesRoundTrip(kit: Kit, done: seq<Entry>, todo: seq<Entry>, rest: seq<Byte>)
    requires EntryChain(kit, LastId(done), todo)
    ensures ReadEntries(kit, EntriesBytes(todo) + rest, |todo|, done) ==
      if EntriesFit(todo) then Got(done + StrippedAll(todo), rest) else Fail
    decreases |todo|
  {
    hide EntryBytes, ReadEntry, Less, EntryFits, Addressable;
    if todo == [] {
      assert EntriesBytes(todo) + rest == rest;
      assert done + StrippedAll(todo) == done;
    } else {
      var e, more := todo[0], EntriesBytes(todo[1..]);
      assert EntriesBytes(todo) + rest == EntryBytes(e) + (more + rest);
      EntryRoundTrip(kit, e, more + rest, done);
      if EntryFits(e) {
        EntriesRoundTrip(kit, done + [Stripped(e)], todo[1..], rest);
        assert done + [Stripped(e)] + StrippedAll(todo[1..]) == done + StrippedAll(todo);
      }
    }
  }

  /** Sorted, distinct, non-blank records form a chain. */
  lemma {:induction false} ReadyIsChain(kit: Kit, entries: seq<Entry>, previous: Option<Str>)
    requires ReadyEntries(kit, entries) && forall i :: 0 <= i < |entries| ==> Addressable(entries[i])
    requires previous.Some? && entries != [] ==> Less(previous.value, entries[0].document.id)
    ensures EntryChain(kit, previous, entries)
    decreases |entries|
  {
    hide Less, Addressable;
    if entries != [] {
      assert |entries| > 1 ==> ById(entries[0], entries[1]);
      ReadyIsChain(kit, entries[1..], Some(entries[0].document.id));
    }
  }

  lemma PostingRoundTrip(entries: seq<Entry>, done: seq<Posting>, p: Posting, rest: seq<Byte>)
    requires |entries| < UINT64 && p.title < UINT64 && p.body < UINT64
    requires p.ordinal < |entries| && !entries[p.ordinal].deleted && (p.title > 0 || p.body > 0)
    requires done != [] ==> done[|done| - 1].ordinal < p.ordinal
    ensures ReadPosting(PostingBytes(done, p) + rest, entries, done) == Got(p, rest)
  {
    hide PutUvarint, ReadUvarint;
    var delta := Delta(done, p);
    var a, b, c := PutUvarint(delta), PutUvarint(p.title), PutUvarint(p.body);
    assert PostingBytes(done, p) + rest == a + (b + (c + rest));
    UvarintRoundTrip(delta, b + (c + rest));
    UvarintRoundTrip(p.title, c + rest);
    UvarintRoundTrip(p.body, rest);
  }

  ghost predicate Countable(list: seq<Posting>) {
    forall i :: 0 <= i < |list| ==> list[i].title < UINT64 && list[i].body < UINT64
  }

  lemma {:induction false} PostingsRoundTrip(entries: seq<Entry>, done: seq<Posting>, todo: seq<Posting>,
      rest: seq<Byte>)
    requires |entries| < UINT64 && ValidPostings(entries, done + todo) && Countable(todo)
    ensures ReadPostings(PostingsBytes(done, todo) + rest, entries, |todo|, done) == Got(done + todo, rest)
    decreases |todo|
  {
    if todo == [] {
      assert PostingsBytes(done, todo) + rest == rest;
      assert done + todo == done;
    } else {
      var p := todo[0];
      assert (done + todo)[|done|] == p;
      assert done != [] ==> (done + todo)[|done| - 1] == done[|done| - 1];
      assert done + todo == (done + [p]) + todo[1..];
      hide PostingBytes, ReadPosting;
      var more := PostingsBytes(done + [p], todo[1..]);
      assert PostingsBytes(done, todo) + rest == PostingBytes(done, p) + (more + rest);
      PostingRoundTrip(entries, done, p, more + rest);
      PostingsRoundTrip(entries, done + [p], todo[1..], rest);
    }
  }

  ghost predicate ReadyTerm(entries: seq<Entry>, t: Term) {
    && t.term != [] && |t.term| < UINT64 && ValidPostings(entries, t.postings) && Countable(t.postings)
    && |t.postings| <= |entries|
  }

  lemma TermRoundTrip(entries: seq<Entry>, t: Term, rest: seq<Byte>, done: seq<Term>)
    requires |entries| < UINT64 && ReadyTerm(entries, t)
    requires done != [] ==> Less(done[|done| - 1].term, t.term)
    ensures ReadTerm(TermBytes(t) + rest, entries, done) == if |t.term| <= MAX_STRING then Got(t, rest) else Fail
  {
    hide PutString, ReadString, PutUvarint, ReadUvarint, Less, PostingsBytes, ReadPostings;
    assert [] + t.postings == t.postings;
    var list := PostingsBytes([], t.postings);
    var counted := PutUvarint(|t.postings|) + (list + rest);
    assert TermBytes(t) + rest == PutString(t.term) + counted;
    StringRoundTrip(t.term, counted, MAX_STRING);
    UvarintRoundTrip(|t.postings|, list + rest);
    PostingsRoundTrip(entries, [], t.postings, rest);
  }

  ghost predicate TermChain(entries: seq<Entry>, previous: Option<Str>, todo: seq<Term>)
    decreases |todo|
  {
    todo == [] ||
    (&& ReadyTerm(entries, todo[0]) && (previous.Some? ==> Less(previous.value, todo[0].term))
     && TermChain(entries, Some(todo[0].term), todo[1..]))
  }

  predicate TermsFit(terms: seq<Term>) {
    terms == [] || (|terms[0].term| <= MAX_STRING && TermsFit(terms[1..]))
  }

  function LastTerm(done: seq<Term>): Option<Str> {
    if done == [] then None else Some(done[|done| - 1].term)
  }

  lemma {:induction false} TermsRoundTrip(entries: seq<Entry>, done: seq<Term>, todo: seq<Term>, rest: seq<Byte>)
    requires |entries| < UINT64 && TermChain(entries, LastTerm(done), todo)
    ensures ReadTerms(TermsBytes(todo) + rest, entries, |todo|, done) == if TermsFit(todo)
      then Got(done + todo, rest) else Fail
    decreases |todo|
  {
    hide TermBytes, TermsBytes, ReadTerm, Less, ReadyTerm;
    FirstTermBytes(todo, rest);
    if todo == [] {
      assert done + todo == done;
    } else {
      var t, more := todo[0], TermsBytes(todo[1..]) + rest;
      TermRoundTrip(entries, t, more, done);
      if |t.term| <= MAX_STRING {
        TermsRoundTrip(entries, done + [t], todo[1..], rest);
        assert done + [t] + todo[1..] == done + todo;
      }
    }
  }

  lemma FirstTermBytes(todo: seq<Term>, rest: seq<Byte>)
    ensures TermsBytes(todo) + rest == if todo == [] then rest else TermBytes(todo[0]) + (TermsBytes(todo[1..]) + rest)
  {
    hide TermBytes;
  }

  /** The limits the decoder enforces and the encoder does not. */
  predicate WithinLimits(entries: seq<Entry>, terms: seq<Term>) {
    |entries| <= MAX_RECORDS && EntriesFit(entries) && |terms| <= MAX_TERMS && TermsFit(terms)
  }

  /** Reading back a payload succeeds exactly when it is within the decoder's limits, and then yields the records with
      deletions stripped and the same terms in the same order. */
  lemma PayloadRoundTrip(kit: Kit, entries: seq<Entry>, terms: seq<Term>)
    requires |entries| < UINT64 && |terms| < UINT64
    requires EntryChain(kit, None, entries) && TermChain(StrippedAll(entries), None, terms)
    ensures ReadPayload(kit, PayloadBytes(entries, terms)) ==
      if WithinLimits(entries, terms) then Got((StrippedAll(entries), terms), []) else Fail
  {
    hide PutUvarint, ReadUvarint, EntriesBytes, TermsBytes, ReadEntries, ReadTerms, EntryChain, TermChain,
      EntriesFit, TermsFit;
    var tail := PutUvarint(|terms|) + TermsBytes(terms);
    assert PayloadBytes(entries, terms) == PutUvarint(|entries|) + (EntriesBytes(entries) + tail);
    UvarintRoundTrip(|entries|, EntriesBytes(entries) + tail);
    EntriesRoundTrip(kit, [], entries, tail);
    assert [] + StrippedAll(entries) == StrippedAll(entries);
    UvarintRoundTrip(|terms|, TermsBytes(terms));
    TermsRoundTrip(StrippedAll(entries), [], terms, []);
    assert TermsBytes(terms) + [] == TermsBytes(terms) && [] + terms == terms;
  }
}
