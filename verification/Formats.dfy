/** The bytes themselves: what each digit of an integer is, and how small files look. */
module Formats {

  import opened Bytes
  import opened Encoding
  import opened Documents
  import opened Tokens
  import WalCodec
  import SegmentCodec
  import SegmentFile

  /** Writing a value that was read gives the same bytes. */
  lemma {:induction false} BigEndianBytes(s: seq<Byte>)
    ensures PutBE(GetBE(s), |s|) == s
  {
    if s != [] {
      var init, last := s[..|s| - 1], s[|s| - 1];
      BigEndianBytes(init);
      assert GetBE(s) == GetBE(init) * 256 + last;
      assert s == init + [last];
    }
  }

  lemma {:induction false} BigEndianBound(s: seq<Byte>)
    ensures GetBE(s) < Power(|s|)
  {
    if s != [] {
      BigEndianBound(s[..|s| - 1]);
    }
  }

  /** The i-th byte from the left of a big-endian integer is its digit for that power of 256. */
  lemma {:induction false} BigEndianDigit(n: nat, width: nat, i: nat)
    requires i < width
    ensures Power(width - 1 - i) > 0 && PutBE(n, width)[i] == n / Power(width - 1 - i) % 256
    decreases width
  {
    PowerPositive(width - 1 - i);
    if i < width - 1 {
      BigEndianDigit(n / 256, width - 1, i);
      DivideTwice(n, 256, Power(width - 2 - i));
    }
  }

  lemma {:induction false} PowerPositive(width: nat)
    ensures Power(width) > 0
  {
    if width > 0 {
      PowerPositive(width - 1);
    }
  }

  lemma {:induction false} SevenPositive(bytes: nat)
    ensures SevenBits(bytes) > 0
  {
    if bytes > 0 {
      SevenPositive(bytes - 1);
    }
  }

  lemma DivideTwice(n: nat, a: nat, b: nat)
    requires a > 0 && b > 0
    ensures a * b > 0 && n / a / b == n / (a * b)
  {
    Divide(n, a);
    Divide(n / a, b);
    Combine(n, a, b, n / a, n % a, n / a / b, n / a % b);
  }

  lemma Divide(n: nat, d: nat)
    requires d > 0
    ensures n == d * (n / d) + n % d && n % d < d && n / d >= 0
  {
  }

  lemma Combine(n: nat, a: nat, b: nat, q: nat, r: nat, s: nat, t: nat)
    requires n == a * q + r && r < a && q == b * s + t && t < b
    ensures a * b > 0 && n / (a * b) == s
  {
    Regroup(a, b, s, t, r);
    Monotone(a, t + 1, b);
    Monotone(a, 1, b);
    Above(n, a, b, s, t, r);
    Quotient(n, a * b, s, a * t + r);
  }

  lemma Above(n: nat, a: nat, b: nat, s: nat, t: nat, r: nat)
    requires r < a && a * (t + 1) <= a * b
    ensures a * t + r < a * b
  {
    assert a * (t + 1) == a * t + a;
  }

  lemma Regroup(a: nat, b: nat, s: nat, t: nat, r: nat)
    ensures a * (b * s + t) + r == a * b * s + (a * t + r)
  {
    assert a * (b * s + t) == a * (b * s) + a * t;
  }

  lemma Monotone(a: nat, x: nat, y: nat)
    requires x <= y
    ensures a * x <= a * y
  {
    var d := y - x;
    assert a * y == a * x + a * d;
  }

  lemma Quotient(n: nat, d: nat, q: nat, r: nat)
    requires d > 0 && n == d * q + r && r < d
    ensures n / d == q
  {
    var p, s := n / d, n % d;
    assert d * p + s == d * q + r;
    if p < q {
      Monotone(d, p + 1, q);
      assert false;
    }
    if q < p {
      Monotone(d, q + 1, p);
      assert false;
    }
  }

  /** The i-th byte of a varint holds seven bits, least significant first, and says whether another byte follows. */
  lemma {:induction false} UvarintDigit(n: nat, i: nat)
    requires i < |PutUvarint(n)|
    ensures SevenBits(i) > 0
    ensures PutUvarint(n)[i] == n / SevenBits(i) % 128 + if i + 1 < |PutUvarint(n)| then 128 else 0
    decreases n
  {
    SevenPositive(i);
    if n >= 128 {
      assert |PutUvarint(n / 128)| >= 1;
      if i > 0 {
        UvarintDigit(n / 128, i - 1);
        DivideTwice(n, 128, SevenBits(i - 1));
      }
    }
  }

  lemma {:induction false} ZeroBytes(width: nat)
    ensures PutBE(0, width) == seq(width, _ => 0)
  {
    if width > 0 {
      ZeroBytes(width - 1);
    }
  }

  lemma TwoLowBytes(n: nat, width: nat)
    requires width >= 2 && n < 65536
    ensures PutBE(n, width) == seq(width - 2, _ => 0) + [n / 256, n % 256]
  {
    assert PutBE(n, width) == PutBE(n / 256, width - 1) + [n % 256];
    assert PutBE(n / 256, width - 1) == PutBE(n / 256 / 256, width - 2) + [n / 256 % 256];
    assert n / 256 / 256 == 0 && n / 256 % 256 == n / 256;
    ZeroBytes(width - 2);
    hide PutBE;
  }

  lemma SmallIntegers()
    ensures PutBE(1, 2) == [0, 1] && PutBE(20, 2) == [0, 20] && PutBE(60, 2) == [0, 60] && PutBE(9, 4) == [0, 0, 0, 9]
    ensures PutBE(258, 8) == [0, 0, 0, 0, 0, 0, 1, 2] && PutBE(513, 8) == [0, 0, 0, 0, 0, 0, 2, 1]
  {
    hide PutBE;
    TwoLowBytes(1, 2);
    TwoLowBytes(20, 2);
    TwoLowBytes(60, 2);
    TwoLowBytes(9, 4);
    TwoLowBytes(258, 8);
    TwoLowBytes(513, 8);
  }

  /** A log file: its name, version 1, the header's own length and the base, then framed records. */
  lemma SmallLog(c: WalCodec.Codec)
    ensures WalCodec.LogBytes(c, 258, [WalCodec.Commit(513)]) ==
      [80, 77, 87, 65, 76, 48, 48, 49, 0, 1, 0, 20, 0, 0, 0, 0, 0, 0, 1, 2] +
      ([0, 0, 0, 9] + PutBE(c.checksum([3, 0, 0, 0, 0, 0, 0, 2, 1]), 4) + [3, 0, 0, 0, 0, 0, 0, 2, 1])
  {
    SmallIntegers();
    hide PutBE;
    var r := WalCodec.Commit(513);
    assert WalCodec.Payload(r) == [3, 0, 0, 0, 0, 0, 0, 2, 1];
    assert WalCodec.RecordsBytes(c, [r]) == WalCodec.RecordBytes(c, r) + WalCodec.RecordsBytes(c, []);
  }

  /** A document and a deletion in the log. */
  lemma SmallChanges()
    ensures WalCodec.Payload(WalCodec.Change(WalCodec.Entry(258, Mutation(Document([97], [98, 99], []), false)))) ==
      [1, 0, 0, 0, 0, 0, 0, 1, 2, 1, 97, 2, 98, 99, 0]
    ensures WalCodec.Payload(WalCodec.Change(WalCodec.Entry(513, Mutation(Document([97], [], []), true)))) ==
      [2, 0, 0, 0, 0, 0, 0, 2, 1, 1, 97]
  {
    SmallIntegers();
    hide PutBE;
    SmallStrings();
  }

  lemma SmallStrings()
    ensures PutString([]) == [0] && PutString([97]) == [1, 97] && PutString([98]) == [1, 98]
    ensures PutString([98, 99]) == [2, 98, 99] && PutString([100]) == [1, 100]
  {
  }

  /** A segment payload: the records in order with a flag byte each, then the terms with their postings, whose ordinals
      are written as differences. */
  lemma SmallSegment()
    ensures SegmentCodec.EntriesBytes([
        SegmentCodec.Entry(Document([97], [98, 99], []), false), SegmentCodec.Entry(Document([100], [], []), true)]) ==
      [0, 1, 97, 2, 98, 99, 0, 1, 1, 100]
    ensures SegmentCodec.TermBytes(SegmentCodec.Term([98],
        [SegmentCodec.Posting(2, 1, 0), SegmentCodec.Posting(5, 0, 4)])) ==
      [1, 98, 2, 2, 1, 0, 3, 0, 4]
  {
    SmallStrings();
    var a := SegmentCodec.Entry(Document([97], [98, 99], []), false);
    var d := SegmentCodec.Entry(Document([100], [], []), true);
    assert SegmentCodec.EntryBytes(a) == [0, 1, 97, 2, 98, 99, 0];
    assert SegmentCodec.EntryBytes(d) == [1, 1, 100];
    assert [a, d][1..] == [d] && [d][1..] == [];
    assert SegmentCodec.EntriesBytes([d]) == [1, 1, 100] + SegmentCodec.EntriesBytes([]);
    assert SegmentCodec.EntriesBytes([a, d]) == [0, 1, 97, 2, 98, 99, 0] + SegmentCodec.EntriesBytes([d]);
    var p, q := SegmentCodec.Posting(2, 1, 0), SegmentCodec.Posting(5, 0, 4);
    assert [p, q][1..] == [q] && [q][1..] == [] && [] + [p] == [p];
    assert SegmentCodec.PostingBytes([], p) == [2, 1, 0];
    assert SegmentCodec.PostingBytes([p], q) == [3, 0, 4];
    assert SegmentCodec.PostingsBytes([p], [q]) == [3, 0, 4] + SegmentCodec.PostingsBytes([p] + [q], []);
    assert SegmentCodec.PostingsBytes([], [p, q]) == [2, 1, 0] + SegmentCodec.PostingsBytes([] + [p], [q]);
  }

  /** A segment file: its name, version 1, the header's own length, generation and payload length, and the checksum. */
  lemma SegmentStart(kit: SegmentCodec.Kit, payload: seq<Byte>)
    requires |payload| == 513
    ensures SegmentFile.Header(kit, 258, payload) ==
      [80, 77, 83, 71, 77, 78, 84, 49, 0, 1, 0, 60, 0, 0, 0, 0, 0, 0, 1, 2, 0, 0, 0, 0, 0, 0, 2, 1] +
      kit.checksum(payload)
  {
    SmallIntegers();
    hide PutBE;
  }

  /** A file is read as a segment exactly when it is the header of its payload followed by that payload: the name, the
      version, both lengths, a positive generation and the checksum are all as the writer puts them. */
  lemma SegmentReadIff(kit: SegmentCodec.Kit, bytes: seq<Byte>, stored: SegmentFile.Stored)
    requires SegmentCodec.ValidKit(kit)
    ensures SegmentFile.ReadSegment(kit, bytes) == SegmentCodec.Ok(stored) <==>
      && |bytes| >= 60 && 0 < stored.generation < UINT64 && |bytes| - 60 <= 512 * 1024 * 1024
      && bytes[..60] == SegmentFile.Header(kit, stored.generation, bytes[60..])
      && SegmentCodec.DecodePayload(kit, bytes[60..]) == SegmentCodec.Ok(stored.segment)
  {
    hide SegmentCodec.DecodePayload, SegmentFile.Header, GetBE;
    if 60 <= |bytes| <= 60 + 512 * 1024 * 1024 {
      SegmentFields(kit, bytes, stored.generation);
    }
  }

  lemma SegmentFields(kit: SegmentCodec.Kit, bytes: seq<Byte>, generation: nat)
    requires SegmentCodec.ValidKit(kit) && |bytes| >= 60 && |bytes| - 60 < UINT64
    ensures generation < UINT64 ==>
      (bytes[..60] == SegmentFile.Header(kit, generation, bytes[60..]) <==>
        && bytes[..8] == SegmentFile.MAGIC && GetBE(bytes[8..10]) == 1 && GetBE(bytes[10..12]) == 60
        && GetBE(bytes[12..20]) == generation && GetBE(bytes[20..28]) == |bytes| - 60
        && bytes[28..60] == kit.checksum(bytes[60..]))
    ensures GetBE(bytes[12..20]) < UINT64
  {
    var sum, payload := kit.checksum(bytes[60..]), bytes[60..];
    assert Power(8) == UINT64 && Power(2) == 65536;
    BigEndianBound(bytes[12..20]);
    Field(bytes[8..10], 1);
    Field(bytes[10..12], 60);
    Field(bytes[20..28], |payload|);
    hide GetBE, PutBE, Power;
    if generation < UINT64 {
      Field(bytes[12..20], generation);
      SixParts(bytes[..60], SegmentFile.MAGIC, PutBE(1, 2), PutBE(60, 2), PutBE(generation, 8), PutBE(|payload|, 8),
        sum);
      assert bytes[..60][..8] == bytes[..8] && bytes[..60][8..10] == bytes[8..10];
      assert bytes[..60][10..12] == bytes[10..12] && bytes[..60][12..20] == bytes[12..20];
      assert bytes[..60][20..28] == bytes[20..28];
      assert bytes[..60][28..] == bytes[28..60];
    }
  }

  /** A fixed-width field holds a number exactly when it reads as that number. */
  lemma Field(s: seq<Byte>, n: nat)
    requires n < Power(|s|)
    ensures s == PutBE(n, |s|) <==> GetBE(s) == n
  {
    BigEndianBytes(s);
    BigEndianRoundTrip(n, |s|);
  }

  lemma SixParts(s: seq<Byte>, a: seq<Byte>, b: seq<Byte>, c: seq<Byte>, d: seq<Byte>, e: seq<Byte>, f: seq<Byte>)
    requires |s| == 60 && |a| == 8 && |b| == 2 && |c| == 2 && |d| == 8 && |e| == 8 && |f| == 32
    ensures s == a + b + c + d + e + f <==>
      s[..8] == a && s[8..10] == b && s[10..12] == c && s[12..20] == d && s[20..28] == e && s[28..] == f
  {
    assert s == s[..8] + s[8..10] + s[10..12] + s[12..20] + s[20..28] + s[28..];
    var t := a + b + c + d + e + f;
    assert t[..8] == a && t[8..10] == b && t[10..12] == c && t[12..20] == d && t[20..28] == e && t[28..] == f;
  }

  /** What a reader of segments accepts at most. */
  lemma ReaderLimits()
    ensures SegmentCodec.MAX_PAYLOAD == 512 * 1024 * 1024 && SegmentCodec.MAX_STRING == 16 * 1024 * 1024
    ensures SegmentCodec.MAX_RECORDS == 10_000_000 && SegmentCodec.MAX_TERMS == 50_000_000
  {
  }

  /** What a posting says: which present document the term occurs in, and how often in its title and in its body. */
  lemma PostingMeans(kit: SegmentCodec.Kit, entries: seq<SegmentCodec.Entry>, term: Str, p: SegmentCodec.Posting)
    ensures p in SegmentCodec.PostingList(kit, entries, term) <==>
      && p.ordinal < |entries| && !entries[p.ordinal].deleted
      && p.title == multiset(kit.tokenize(entries[p.ordinal].document.title))[term]
      && p.body == multiset(kit.tokenize(entries[p.ordinal].document.body))[term]
      && p.title + p.body > 0
  {
    SegmentCodec.PostingListExact(kit, entries, term, p);
    if p.ordinal < |entries| {
      FrequencyOfToken(kit.tokenize(entries[p.ordinal].document.title), term);
      FrequencyOfToken(kit.tokenize(entries[p.ordinal].document.body), term);
    }
  }
}
