/** Whole segment files: what is accepted for writing, what reads back, and what a reader may rely on. */
module SegmentFile {

  import opened Bytes
  import opened Ordering
  import opened Wrappers
  import opened Encoding
  import opened Documents
  import opened SegmentCodec

  const HEADER_SIZE: nat := 60
  const MAGIC: seq<Byte> := [80, 77, 83, 71, 77, 78, 84, 49]

  // ---------------------------------------------------------------------------
  // Writing

  ghost function TermList(postings: Postings): (terms: seq<Term>)
    ensures |terms| == |postings|
    ensures forall i :: 0 <= i < |terms| ==>
      terms[i].term == Ascending(postings.Keys)[i] && terms[i].term in postings &&
        terms[i].postings == postings[terms[i].term]
  {
    var keys := Ascending(postings.Keys);
    AscendingIn(postings.Keys);
    seq(|keys|, i requires 0 <= i < |keys| => Term(keys[i], postings[keys[i]]))
  }

  /** The encoder's check of its sorted input: no blank ID, and no ID twice in a row. */
  predicate Accepted(kit: Kit, sorted: seq<Entry>) {
    && (forall i :: 0 <= i < |sorted| ==> kit.trim(sorted[i].document.id) != [])
    && (forall i :: 0 < i < |sorted| ==> sorted[i - 1].document.id != sorted[i].document.id)
  }

  ghost function EncodePayload(kit: Kit, entries: seq<Entry>): Result<seq<Byte>> {
    var sorted := Sort(ById, entries);
    if !Accepted(kit, sorted) then Err(Invalid)
    else
      var bytes := PayloadBytes(sorted, TermList(BuildPostings(kit, sorted)));
      if |bytes| > MAX_PAYLOAD then Err(Invalid) else Ok(bytes)
  }

  function Header(kit: Kit, generation: nat, payload: seq<Byte>): seq<Byte> {
    MAGIC + PutBE(1, 2) + PutBE(HEADER_SIZE, 2) + PutBE(generation, 8) + PutBE(|payload|, 8) + kit.checksum(payload)
  }

  ghost function WriteSegment(kit: Kit, generation: nat, entries: seq<Entry>): Result<seq<Byte>> {
    if generation == 0 then Err(Invalid)
    else
      match EncodePayload(kit, entries)
      case Err(e) => Err(e)
      case Ok(payload) => Ok(Header(kit, generation, payload) + payload)
  }

  datatype Stored = Stored(generation: nat, segment: Segment)

  function ReadSegment(kit: Kit, bytes: seq<Byte>): Result<Stored> {
    if |bytes| < HEADER_SIZE || bytes[..8] != MAGIC then Err(Invalid)
    else if GetBE(bytes[8..10]) != 1 then Err(UnsupportedVersion)
    else if GetBE(bytes[10..12]) != HEADER_SIZE then Err(Invalid)
    else
      var generation, size := GetBE(bytes[12..20]), GetBE(bytes[20..28]);
      if generation == 0 || size > MAX_PAYLOAD || |bytes| != HEADER_SIZE + size then Err(Invalid)
      else
        var payload := bytes[HEADER_SIZE..];
        if kit.checksum(payload) != bytes[28..HEADER_SIZE] then Err(ChecksumMismatch)
        else
          match DecodePayload(kit, payload)
          case Err(e) => Err(e)
          case Ok(segment) => Ok(Stored(generation, segment))
  }

  // ---------------------------------------------------------------------------
  // The sorted input

  lemma ByIdWeak()
    ensures WeakOrder(ById)
  {
    LessTotal();
    forall x: Entry, y: Entry, z: Entry | ById(x, z) ensures ById(x, y) || ById(y, z) {
      assert x.document.id == y.document.id || Less(x.document.id, y.document.id) || Less(y.document.id, x.document.id);
    }
  }

  ghost predicate DistinctIds(entries: seq<Entry>) {
    forall i, j :: 0 <= i < j < |entries| ==> entries[i].document.id != entries[j].document.id
  }

  /** Sorted records without equal neighbours are strictly ascending. */
  lemma SortedIsReady(kit: Kit, entries: seq<Entry>)
    requires Accepted(kit, Sort(ById, entries))
    ensures ReadyEntries(kit, Sort(ById, entries))
  {
    ByIdWeak();
    SortSorts(ById, entries);
    AscendingFromNeighbours(Sort(ById, entries));
  }

  lemma AscendingFromNeighbours(s: seq<Entry>)
    requires Sorted(ById, s) && forall i :: 0 < i < |s| ==> s[i - 1].document.id != s[i].document.id
    ensures StrictlySorted(ById, s)
  {
    LessTotal();
    forall i, j | 0 <= i < j < |s| ensures ById(s[i], s[j]) {
      Between(s, i, j);
    }
  }

  lemma {:induction false} Between(s: seq<Entry>, i: nat, j: nat)
    requires Sorted(ById, s) && forall k :: 0 < k < |s| ==> s[k - 1].document.id != s[k].document.id
    requires i < j < |s|
    ensures ById(s[i], s[j])
    decreases j
  {
    LessTotal();
    hide Less;
    assert !ById(s[j], s[j - 1]);
    assert s[j - 1].document.id != s[j].document.id;
    if i < j - 1 {
      Between(s, i, j - 1);
    }
  }

  ghost predicate NoBlankIds(kit: Kit, entries: seq<Entry>) {
    forall i :: 0 <= i < |entries| ==> kit.trim(entries[i].document.id) != []
  }

  lemma PermutedBlanks(kit: Kit, a: seq<Entry>, b: seq<Entry>)
    requires NoBlankIds(kit, a) && multiset(a) == multiset(b)
    ensures NoBlankIds(kit, b)
  {
    SameElements(a, b);
    forall i | 0 <= i < |b| ensures kit.trim(b[i].document.id) != [] {
      assert b[i] in Elements(b);
    }
  }

  lemma StrictIdsDistinct(s: seq<Entry>)
    requires StrictlySorted(ById, s)
    ensures DistinctIds(s)
  {
    LessTotal();
    hide Less;
    forall i, j | 0 <= i < j < |s| ensures s[i].document.id != s[j].document.id {
      assert ById(s[i], s[j]);
    }
  }

  /** The check on the sorted list means what it should of the list as given: no blank IDs and no ID twice. */
  lemma AcceptedIff(kit: Kit, entries: seq<Entry>)
    ensures Accepted(kit, Sort(ById, entries)) <==> DistinctIds(entries) && NoBlankIds(kit, entries)
  {
    hide Sort, ById;
    var sorted := Sort(ById, entries);
    if Accepted(kit, sorted) {
      SortedIsReady(kit, entries);
      StrictIdsDistinct(sorted);
      PermutedIds(sorted, entries);
      PermutedBlanks(kit, sorted, entries);
    }
    if DistinctIds(entries) && NoBlankIds(kit, entries) {
      PermutedIds(entries, sorted);
      PermutedBlanks(kit, entries, sorted);
    }
  }

  /** Distinct IDs stay distinct under permutation. */
  lemma PermutedIds(a: seq<Entry>, b: seq<Entry>)
    requires DistinctIds(a) && multiset(a) == multiset(b)
    ensures DistinctIds(b)
  {
    assert Distinct(a);
    PermutationDistinct(a, b);
    SameElements(a, b);
    forall i, j | 0 <= i < j < |b| ensures b[i].document.id != b[j].document.id {
      assert b[i] in Elements(b) && b[j] in Elements(b);
      var k :| 0 <= k < |a| && a[k] == b[i];
      var l :| 0 <= l < |a| && a[l] == b[j];
    }
  }

  // ---------------------------------------------------------------------------
  // Lengths are bounded by the payload they are part of

  lemma EntryLengths(e: Entry)
    ensures |EntryBytes(e)| >= 1 + |e.document.id|
    ensures !e.deleted ==> |EntryBytes(e)| >= 1 + |e.document.title| && |EntryBytes(e)| >= 1 + |e.document.body|
  {
  }

  lemma {:induction false} EntriesLengths(entries: seq<Entry>)
    ensures |EntriesBytes(entries)| >= |entries|
    ensures forall i :: 0 <= i < |entries| ==> |EntryBytes(entries[i])| <= |EntriesBytes(entries)|
  {
    if entries != [] {
      EntriesLengths(entries[1..]);
      EntryLengths(entries[0]);
      hide EntryBytes;
      forall i | 0 <= i < |entries| ensures |EntryBytes(entries[i])| <= |EntriesBytes(entries)| {
        if i > 0 {
          assert entries[i] == entries[1..][i - 1];
        }
      }
    }
  }

  lemma {:induction false} UvarintNonempty(n: nat)
    ensures |PutUvarint(n)| >= 1
  {
  }

  lemma {:induction false} TermsLengths(terms: seq<Term>)
    ensures |TermsBytes(terms)| >= |terms|
    ensures forall i :: 0 <= i < |terms| ==> |terms[i].term| <= |TermsBytes(terms)|
  {
    if terms != [] {
      TermsLengths(terms[1..]);
      UvarintNonempty(|terms[0].term|);
      forall i | 0 <= i < |terms| ensures |terms[i].term| <= |TermsBytes(terms)| {
        if i > 0 {
          assert terms[i] == terms[1..][i - 1];
        }
      }
    }
  }

  // ---------------------------------------------------------------------------
  // The round trip

  /** Stripping deletions leaves the postings valid: they never point at one. */
  lemma StrippedPostings(entries: seq<Entry>, list: seq<Posting>)
    requires ValidPostings(entries, list)
    ensures ValidPostings(StrippedAll(entries), list)
  {
  }

  lemma TermIsReady(kit: Kit, sorted: seq<Entry>, term: Str)
    requires ValidKit(kit) && term in BuildPostings(kit, sorted) && |term| < UINT64
    ensures ReadyTerm(StrippedAll(sorted), Term(term, BuildPostings(kit, sorted)[term]))
  {
    BuildIsPerTerm(kit, sorted, term);
    PostingListValid(kit, sorted, term);
    hide BuildPostings, PostingList, ValidPostings;
    var list := BuildPostings(kit, sorted)[term];
    StrippedPostings(sorted, list);
    forall i | 0 <= i < |list| ensures list[i].title < UINT64 && list[i].body < UINT64 {
      assert list[i] in PostingList(kit, sorted, term);
      FrequenciesFit(kit, sorted, term, list[i]);
    }
    assert list[0] in PostingList(kit, sorted, term);
    PostingListExact(kit, sorted, term, list[0]);
  }

  lemma {:induction false} TermsAreChain(entries: seq<Entry>, terms: seq<Term>, previous: Option<Str>)
    requires forall i :: 0 <= i < |terms| ==> ReadyTerm(entries, terms[i])
    requires forall i, j :: 0 <= i < j < |terms| ==> Less(terms[i].term, terms[j].term)
    requires previous.Some? && terms != [] ==> Less(previous.value, terms[0].term)
    ensures TermChain(entries, previous, terms)
    decreases |terms|
  {
    hide Less, ReadyTerm;
    if terms != [] {
      TermsAreChain(entries, terms[1..], Some(terms[0].term));
    }
  }

  lemma TermListIsChain(kit: Kit, sorted: seq<Entry>)
    requires ValidKit(kit)
    requires forall t :: t in TermList(BuildPostings(kit, sorted)) ==> |t.term| < UINT64
    ensures TermChain(StrippedAll(sorted), None, TermList(BuildPostings(kit, sorted)))
  {
    var postings := BuildPostings(kit, sorted);
    var terms := TermList(postings);
    hide BuildPostings, Less, ReadyTerm, TermList;
    forall i | 0 <= i < |terms| ensures ReadyTerm(StrippedAll(sorted), terms[i]) {
      assert terms[i] in terms;
      TermIsReady(kit, sorted, terms[i].term);
    }
    TermsAreChain(StrippedAll(sorted), terms, None);
  }

  lemma {:induction false} TermMapOf(terms: seq<Term>)
    requires forall i, j :: 0 <= i < j < |terms| ==> terms[i].term != terms[j].term
    ensures forall i :: 0 <= i < |terms| ==>
      terms[i].term in TermMap(terms) && TermMap(terms)[terms[i].term] == terms[i].postings
    ensures forall x :: x in TermMap(terms) ==> exists i :: 0 <= i < |terms| && terms[i].term == x
  {
    if terms != [] {
      var init := terms[..|terms| - 1];
      TermMapOf(init);
      assert TermMap(terms) == TermMap(init)[terms[|terms| - 1].term := terms[|terms| - 1].postings];
      hide TermMap;
      forall x | x in TermMap(terms) ensures exists i :: 0 <= i < |terms| && terms[i].term == x {
        if x != terms[|terms| - 1].term {
          assert x in TermMap(init);
          var i :| 0 <= i < |init| && init[i].term == x;
          assert terms[i].term == x;
        }
      }
    }
  }

  lemma TermListLists(postings: Postings)
    ensures var terms := TermList(postings);
      && (forall i, j :: 0 <= i < j < |terms| ==> terms[i].term != terms[j].term)
      && (forall x :: x in postings ==> exists i :: 0 <= i < |terms| && terms[i].term == x)
  {
    hide Less, TermList, Ascending;
    var terms, keys := TermList(postings), Ascending(postings.Keys);
    AscendingDistinct(postings.Keys);
    forall x | x in postings ensures exists i :: 0 <= i < |terms| && terms[i].term == x {
      assert x in Elements(keys);
      var i :| 0 <= i < |keys| && keys[i] == x;
      assert terms[i].term == x;
    }
  }

  lemma TermListRoundTrip(postings: Postings)
    ensures TermMap(TermList(postings)) == postings
  {
    hide TermMap, TermList, Ascending;
    var terms := TermList(postings);
    TermListLists(postings);
    TermMapOf(terms);
    assert TermMap(terms).Keys == postings.Keys;
  }

  /** A payload the encoder accepts decodes exactly when it is within the decoder's limits, and then to the records in
      order of ID with deletions stripped and exactly the postings of their texts. */
  lemma PayloadReadsBack(kit: Kit, entries: seq<Entry>)
    requires ValidKit(kit) && EncodePayload(kit, entries).Ok?
    ensures var sorted := Sort(ById, entries);
      DecodePayload(kit, EncodePayload(kit, entries).value) ==
        if WithinLimits(sorted, TermList(BuildPostings(kit, sorted)))
        then Ok(Segment(StrippedAll(sorted), BuildPostings(kit, sorted))) else Err(Invalid)
  {
    var sorted := Sort(ById, entries);
    var postings := BuildPostings(kit, sorted);
    var terms := TermList(postings);
    SortedIsReady(kit, entries);
    PayloadIsReadable(kit, sorted, terms);
    hide Sort, BuildPostings, TermList, PayloadBytes, ReadPayload, WithinLimits;
    TermListIsChain(kit, sorted);
    TermListRoundTrip(postings);
    PayloadRoundTrip(kit, sorted, terms);
  }

  /** The size check bounds every length in the payload. */
  lemma PayloadIsReadable(kit: Kit, sorted: seq<Entry>, terms: seq<Term>)
    requires ReadyEntries(kit, sorted) && |PayloadBytes(sorted, terms)| <= MAX_PAYLOAD
    ensures |sorted| < UINT64 && |terms| < UINT64 && EntryChain(kit, None, sorted)
    ensures forall t :: t in terms ==> |t.term| < UINT64
  {
    EntriesLengths(sorted);
    TermsLengths(terms);
    hide EntriesBytes, TermsBytes;
    forall i | 0 <= i < |sorted| ensures Addressable(sorted[i]) {
      EntryLengths(sorted[i]);
    }
    ReadyIsChain(kit, sorted, None);
  }

  lemma SegmentFields(kit: Kit, generation: nat, payload: seq<Byte>)
    requires ValidKit(kit) && generation < UINT64 && |payload| < UINT64
    ensures var b := Header(kit, generation, payload) + payload;
      && |b| == HEADER_SIZE + |payload| && b[..8] == MAGIC && GetBE(b[8..10]) == 1 && GetBE(b[10..12]) == HEADER_SIZE
      && GetBE(b[12..20]) == generation && GetBE(b[20..28]) == |payload| && b[28..HEADER_SIZE] == kit.checksum(payload)
      && b[HEADER_SIZE..] == payload
  {
    hide PutBE, GetBE;
    CutAt(MAGIC, PutBE(1, 2), PutBE(HEADER_SIZE, 2), PutBE(generation, 8), PutBE(|payload|, 8),
      kit.checksum(payload), payload);
    BigEndianRoundTrip(1, 2);
    BigEndianRoundTrip(HEADER_SIZE, 2);
    BigEndianRoundTrip(generation, 8);
    BigEndianRoundTrip(|payload|, 8);
  }

  /** The fields of a header lie where their lengths put them. */
  lemma CutAt(a: seq<Byte>, b: seq<Byte>, c: seq<Byte>, d: seq<Byte>, e: seq<Byte>, f: seq<Byte>, g: seq<Byte>)
    requires |a| == 8 && |b| == 2 && |c| == 2 && |d| == 8 && |e| == 8 && |f| == 32
    ensures var s := a + b + c + d + e + f + g;
      && |s| == 60 + |g| && s[..8] == a && s[8..10] == b && s[10..12] == c && s[12..20] == d && s[20..28] == e
      && s[28..60] == f && s[60..] == g
  {
  }

  lemma EncodedSize(kit: Kit, entries: seq<Entry>)
    requires EncodePayload(kit, entries).Ok?
    ensures |EncodePayload(kit, entries).value| <= MAX_PAYLOAD
  {
    hide Sort, Accepted, BuildPostings, TermList, PayloadBytes;
  }

  /** Reading a header followed by its payload comes down to decoding the payload. */
  lemma ReadsPayload(kit: Kit, generation: nat, payload: seq<Byte>)
    requires ValidKit(kit) && 0 < generation < UINT64 && |payload| <= MAX_PAYLOAD
    ensures ReadSegment(kit, Header(kit, generation, payload) + payload) ==
      match DecodePayload(kit, payload)
      case Err(e) => Err(e)
      case Ok(segment) => Ok(Stored(generation, segment))
  {
    hide Header, DecodePayload, GetBE;
    SegmentFields(kit, generation, payload);
  }

  /** A published segment reads back with its generation, or is refused because a string or count in it exceeds what
      readers accept, which nothing checked when it was written. */
  lemma SegmentReadsBack(kit: Kit, generation: nat, entries: seq<Entry>)
    requires ValidKit(kit) && generation < UINT64 && WriteSegment(kit, generation, entries).Ok?
    ensures var sorted := Sort(ById, entries);
      ReadSegment(kit, WriteSegment(kit, generation, entries).value) ==
        if WithinLimits(sorted, TermList(BuildPostings(kit, sorted)))
        then Ok(Stored(generation, Segment(StrippedAll(sorted), BuildPostings(kit, sorted)))) else Err(Invalid)
  {
    hide EncodePayload, Header, DecodePayload, ReadSegment, Sort, BuildPostings, WithinLimits, TermList, StrippedAll,
      ValidKit;
    EncodedSize(kit, entries);
    PayloadReadsBack(kit, entries);
    ReadsPayload(kit, generation, EncodePayload(kit, entries).value);
  }

  // ---------------------------------------------------------------------------
  // What a reader may rely on

  /** Records of a decoded payload: ascending, non-blank IDs, and tombstones without text. */
  ghost predicate ValidEntries(kit: Kit, entries: seq<Entry>) {
    ReadyEntries(kit, entries) && forall i :: 0 <= i < |entries| ==> Stripped(entries[i]) == entries[i]
  }

  lemma ReadEntryValid(kit: Kit, s: seq<Byte>, done: seq<Entry>)
    requires ValidEntries(kit, done)
    ensures var r := ReadEntry(kit, s, done);
      r.Got? ==> ValidEntries(kit, done + [r.value])
  {
    var r := ReadEntry(kit, s, done);
    if r.Got? && done != [] {
      LessTotal();
      assert ById(done[|done| - 1], r.value);
      forall i | 0 <= i < |done| ensures ById(done[i], r.value) {
        if i < |done| - 1 {
          assert ById(done[i], done[|done| - 1]);
        }
      }
    }
  }

  lemma {:induction false} ReadEntriesValid(kit: Kit, s: seq<Byte>, count: nat, done: seq<Entry>)
    requires ValidEntries(kit, done)
    ensures var r := ReadEntries(kit, s, count, done);
      r.Got? ==> ValidEntries(kit, r.value) && |r.value| == |done| + count
    decreases count
  {
    hide ReadEntry, ValidEntries;
    if count > 0 {
      ReadEntryValid(kit, s, done);
      var e := ReadEntry(kit, s, done);
      if e.Got? {
        ReadEntriesValid(kit, e.rest, count - 1, done + [e.value]);
      }
    }
  }

  lemma {:induction false} ReadPostingsValid(s: seq<Byte>, entries: seq<Entry>, count: nat, done: seq<Posting>)
    requires ValidPostings(entries, done)
    ensures var r := ReadPostings(s, entries, count, done);
      r.Got? ==> ValidPostings(entries, r.value) && |r.value| == |done| + count
    decreases count
  {
    if count > 0 {
      var p := ReadPosting(s, entries, done);
      if p.Got? {
        assert ValidPostings(entries, done + [p.value]);
        hide ReadPosting, ValidPostings;
        ReadPostingsValid(p.rest, entries, count - 1, done + [p.value]);
      }
    }
  }

  /** Terms of a decoded payload: ascending, not empty, each with valid postings. */
  ghost predicate ValidTerms(entries: seq<Entry>, terms: seq<Term>) {
    && (forall i :: 0 <= i < |terms| ==>
          terms[i].term != [] && ValidPostings(entries, terms[i].postings) && |terms[i].postings| <= |entries|)
    && (forall i, j :: 0 <= i < j < |terms| ==> Less(terms[i].term, terms[j].term))
  }

  lemma ReadTermValid(s: seq<Byte>, entries: seq<Entry>, done: seq<Term>)
    requires ValidTerms(entries, done)
    ensures var r := ReadTerm(s, entries, done);
      r.Got? ==> ValidTerms(entries, done + [r.value])
  {
    var r := ReadTerm(s, entries, done);
    if r.Got? {
      TermPostingsValid(s, entries, done);
      LessTotal();
      hide ReadPostings, ValidPostings;
      assert done != [] ==> Less(done[|done| - 1].term, r.value.term);
      hide ReadTerm, Less;
      forall i | 0 <= i < |done| ensures Less(done[i].term, r.value.term) {
        assert i < |done| - 1 ==> Less(done[i].term, done[|done| - 1].term);
      }
    }
  }

  lemma TermPostingsValid(s: seq<Byte>, entries: seq<Entry>, done: seq<Term>)
    requires ReadTerm(s, entries, done).Got?
    ensures var t := ReadTerm(s, entries, done).value;
      t.term != [] && ValidPostings(entries, t.postings) && |t.postings| <= |entries|
  {
    hide ReadString, ReadUvarint, ReadPostings, ValidPostings;
    var name := ReadString(s, MAX_STRING);
    var count := ReadUvarint(name.rest);
    NoPostingsValid(entries);
    ReadPostingsValid(count.rest, entries, count.value, []);
  }

  lemma NoPostingsValid(entries: seq<Entry>)
    ensures ValidPostings(entries, [])
  {
  }

  lemma {:induction false} ReadTermsValid(s: seq<Byte>, entries: seq<Entry>, count: nat, done: seq<Term>)
    requires ValidTerms(entries, done)
    ensures var r := ReadTerms(s, entries, count, done);
      r.Got? ==> ValidTerms(entries, r.value) && |r.value| == |done| + count
    decreases count
  {
    if count > 0 {
      ReadTermValid(s, entries, done);
      hide ReadTerm, ValidTerms;
      var t := ReadTerm(s, entries, done);
      if t.Got? {
        ReadTermsValid(t.rest, entries, count - 1, done + [t.value]);
      }
    }
  }

  /** Whatever bytes a reader accepts as a payload, it consumed all of them, and what it got is well formed: ascending
      non-blank IDs, ascending non-empty terms, and posting lists with ascending ordinals that point at present
      records and count some occurrence, so that no ordinal can overflow. */
  lemma DecodedIsWellFormed(kit: Kit, payload: seq<Byte>)
    requires ReadPayload(kit, payload).Got?
    ensures var (entries, terms) := ReadPayload(kit, payload).value;
      && ReadPayload(kit, payload).rest == []
      && ValidEntries(kit, entries) && |entries| <= MAX_RECORDS
      && ValidTerms(entries, terms) && |terms| <= MAX_TERMS
      && (forall i, p :: 0 <= i < |terms| && p in terms[i].postings ==> p.ordinal < MAX_RECORDS)
  {
    hide ReadUvarint, ReadEntries, ReadTerms;
    var n := ReadUvarint(payload);
    ReadEntriesValid(kit, n.rest, n.value, []);
    var es := ReadEntries(kit, n.rest, n.value, []);
    var m := ReadUvarint(es.rest);
    ReadTermsValid(m.rest, es.value, m.value, []);
  }
}
