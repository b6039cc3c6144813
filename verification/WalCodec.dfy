/** The write-ahead log on disk: header, framed records, and the scan that recovers them. */
module WalCodec {

  import opened Bytes
  import opened Encoding
  import opened Documents

  const HEADER_SIZE: nat := 20
  const FRAME_SIZE: nat := 8
  const MAX_RECORD: nat := 0x200_0000
  const UPSERT: Byte := 1
  const DELETE: Byte := 2
  const COMMIT: Byte := 3
  const MAGIC: seq<Byte> := [80, 77, 87, 65, 76, 48, 48, 49]

  /** The checksum and the trimming of IDs, as whatever functions they are; a checksum has 32 bits. */
  datatype Codec = Codec(checksum: seq<Byte> -> nat, trim: Str -> Str)

  ghost predicate ValidCodec(c: Codec) {
    && (forall s :: c.checksum(s) < 0x1_0000_0000)
    && (forall s :: c.trim(c.trim(s)) == c.trim(s))
  }

  datatype Entry = Entry(sequence: nat, mutation: Mutation)

  datatype Record = Change(entry: Entry) | Commit(sequence: nat)

  datatype Error = Corrupt | UnsupportedVersion

  datatype Result<+T> = Ok(value: T) | Err(error: Error)

  // ---------------------------------------------------------------------------
  // Records

  function ChangePayload(e: Entry): seq<Byte> {
    [if e.mutation.deleted then DELETE else UPSERT] + PutBE(e.sequence, 8) + PutString(e.mutation.document.id) +
    (if e.mutation.deleted then [] else PutString(e.mutation.document.title) + PutString(e.mutation.document.body))
  }

  function Payload(r: Record): seq<Byte> {
    match r
    case Change(e) => ChangePayload(e)
    case Commit(sequence) => [COMMIT] + PutBE(sequence, 8)
  }

  /** The check made before a mutation is encoded. */
  predicate Fits(m: Mutation) {
    |m.document.id| + |m.document.title| + |m.document.body| <= MAX_RECORD - 32
  }

  /** A record the log writes: a 64-bit positive sequence, an ID that is not blank, sizes within bounds, and no text
      left in a deletion. */
  ghost predicate ValidRecord(c: Codec, r: Record) {
    match r
    case Change(e) =>
      && 0 < e.sequence < UINT64 && c.trim(e.mutation.document.id) != [] && Fits(e.mutation)
      && (e.mutation.deleted ==> e.mutation.document.title == [] && e.mutation.document.body == [])
    case Commit(sequence) => 0 < sequence < UINT64
  }

  function DecodePayload(c: Codec, payload: seq<Byte>): Result<Record> {
    if |payload| < 9 then Err(Corrupt)
    else
      var kind, sequence := payload[0], GetBE(payload[1..9]);
      if sequence == 0 then Err(Corrupt)
      else if kind == COMMIT then if |payload| != 9 then Err(Corrupt) else Ok(Commit(sequence))
      else if kind != UPSERT && kind != DELETE then Err(Corrupt)
      else
        match ReadString(payload[9..], MAX_RECORD)
        case Fail => Err(Corrupt)
        case Got(id, rest) =>
          if kind == DELETE then
            if rest != [] || c.trim(id) == [] then Err(Corrupt)
            else Ok(Change(Entry(sequence, Mutation(Document(id, [], []), true))))
          else
            match ReadString(rest, MAX_RECORD)
            case Fail => Err(Corrupt)
            case Got(title, rest) =>
              match ReadString(rest, MAX_RECORD)
              case Fail => Err(Corrupt)
              case Got(body, rest) =>
                if rest != [] || c.trim(id) == [] then Err(Corrupt)
                else Ok(Change(Entry(sequence, Mutation(Document(id, title, body), false))))
  }

  lemma SequenceField(kind: Byte, sequence: nat, rest: seq<Byte>)
    requires sequence < UINT64
    ensures var p := [kind] + PutBE(sequence, 8) + rest;
      |p| >= 9 && p[0] == kind && GetBE(p[1..9]) == sequence && p[9..] == rest
  {
    var p := [kind] + PutBE(sequence, 8) + rest;
    assert p[1..9] == PutBE(sequence, 8);
    assert p[9..] == rest;
    BigEndianRoundTrip(sequence, 8);
  }

  /** Decoding what was encoded gives the record back. */
  lemma PayloadRoundTrip(c: Codec, r: Record)
    requires ValidRecord(c, r)
    ensures DecodePayload(c, Payload(r)) == Ok(r)
  {
    match r
    case Commit(sequence) =>
      SequenceField(COMMIT, sequence, []);
      assert [COMMIT] + PutBE(sequence, 8) == [COMMIT] + PutBE(sequence, 8) + [];
    case Change(e) =>
      ChangeRoundTrip(c, e);
  }

  lemma ChangeRoundTrip(c: Codec, e: Entry)
    requires ValidRecord(c, Change(e))
    ensures DecodePayload(c, ChangePayload(e)) == Ok(Change(e))
  {
    var d := e.mutation.document;
    var texts := if e.mutation.deleted then [] else PutString(d.title) + PutString(d.body);
    var kind := if e.mutation.deleted then DELETE else UPSERT;
    hide PutString, ReadString, PutBE, GetBE;
    assert ChangePayload(e) == [kind] + PutBE(e.sequence, 8) + (PutString(d.id) + texts);
    SequenceField(kind, e.sequence, PutString(d.id) + texts);
    StringRoundTrip(d.id, texts, MAX_RECORD);
    if !e.mutation.deleted {
      StringRoundTrip(d.title, PutString(d.body), MAX_RECORD);
      assert PutString(d.body) == PutString(d.body) + [];
      StringRoundTrip(d.body, [], MAX_RECORD);
    }
  }

  /** A mutation that passes the size check always encodes within the record limit. */
  lemma PayloadFits(c: Codec, r: Record)
    requires ValidRecord(c, r)
    ensures 0 < |Payload(r)| <= MAX_RECORD
  {
    if r.Change? {
      var d := r.entry.mutation.document;
      assert SevenBits(4) == 0x1000_0000;
      UvarintLength(|d.id|, 4);
      UvarintLength(|d.title|, 4);
      UvarintLength(|d.body|, 4);
    }
  }

  function Frame(c: Codec, payload: seq<Byte>): seq<Byte> {
    PutBE(|payload|, 4) + PutBE(c.checksum(payload), 4) + payload
  }

  function RecordBytes(c: Codec, r: Record): (b: seq<Byte>)
    ensures |b| == FRAME_SIZE + |Payload(r)|
  {
    Frame(c, Payload(r))
  }

  function RecordsBytes(c: Codec, rs: seq<Record>): seq<Byte> {
    if rs == [] then [] else RecordBytes(c, rs[0]) + RecordsBytes(c, rs[1..])
  }

  function Header(base: nat): (h: seq<Byte>)
    ensures |h| == HEADER_SIZE
  {
    MAGIC + PutBE(1, 2) + PutBE(HEADER_SIZE, 2) + PutBE(base, 8)
  }

  function LogBytes(c: Codec, base: nat, rs: seq<Record>): (b: seq<Byte>)
    ensures |b| == HEADER_SIZE + |RecordsBytes(c, rs)|
  {
    Header(base) + RecordsBytes(c, rs)
  }

  // ---------------------------------------------------------------------------
  // The scan

  datatype Scan = Scan(base: nat, last: nat, committed: nat, valid: nat, tail: bool, entries: seq<Entry>)

  function StartScan(base: nat): Scan {
    Scan(base, base, base, HEADER_SIZE, false, [])
  }

  predicate Follows(s: Scan, r: Record) {
    match r
    case Change(e) => e.sequence == (s.last + 1) % UINT64
    case Commit(sequence) => s.committed <= sequence <= s.last
  }

  function Take(s: Scan, r: Record, size: nat): Scan {
    match r
    case Change(e) => s.(last := e.sequence, entries := s.entries + [e], valid := s.valid + size)
    case Commit(sequence) => s.(committed := sequence, valid := s.valid + size)
  }

  datatype FrameRead = Torn | Bad(error: Error) | Whole(record: Record, size: nat)

  /** Reads one record at the start of `rest`: whole, cut short, or not what was written. */
  function ReadFrame(c: Codec, rest: seq<Byte>): (f: FrameRead)
    ensures f.Whole? ==> FRAME_SIZE <= f.size <= |rest|
  {
    if |rest| < FRAME_SIZE then Torn
    else
      var size := GetBE(rest[..4]);
      if size == 0 || size > MAX_RECORD then Bad(Corrupt)
      else if |rest| < FRAME_SIZE + size then Torn
      else
        var payload := rest[FRAME_SIZE..FRAME_SIZE + size];
        if c.checksum(payload) != GetBE(rest[4..FRAME_SIZE]) then Bad(Corrupt)
        else
          match DecodePayload(c, payload)
          case Err(e) => Bad(e)
          case Ok(r) => Whole(r, FRAME_SIZE + size)
  }

  /** Scans the bytes that follow a record boundary. */
  function ScanRest(c: Codec, rest: seq<Byte>, s: Scan): Result<Scan>
    decreases |rest|
  {
    if rest == [] then Ok(s)
    else
      match ReadFrame(c, rest)
      case Torn => Ok(s.(tail := true))
      case Bad(e) => Err(e)
      case Whole(r, size) => if !Follows(s, r) then Err(Corrupt) else ScanRest(c, rest[size..], Take(s, r, size))
  }

  function ScanLog(c: Codec, file: seq<Byte>): Result<Scan> {
    if |file| < HEADER_SIZE || file[..8] != MAGIC then Err(Corrupt)
    else if GetBE(file[8..10]) != 1 then Err(UnsupportedVersion)
    else if GetBE(file[10..12]) != HEADER_SIZE then Err(Corrupt)
    else ScanRest(c, file[HEADER_SIZE..], StartScan(GetBE(file[12..HEADER_SIZE])))
  }

  // ---------------------------------------------------------------------------
  // Where a scan stops reading

  /** How many bytes of `rest` are read for its first record, when that record is refused. */
  function ReadForBad(rest: seq<Byte>): nat {
    if |rest| < FRAME_SIZE then |rest|
    else
      var size := GetBE(rest[..4]);
      if size == 0 || size > MAX_RECORD || |rest| < FRAME_SIZE + size then FRAME_SIZE else FRAME_SIZE + size
  }

  /** How many bytes of `rest` a scan reads. */
  function ReadByScan(c: Codec, rest: seq<Byte>, s: Scan): (n: nat)
    ensures n <= |rest|
    decreases |rest|
  {
    if rest == [] then 0
    else
      match ReadFrame(c, rest)
      case Torn => |rest|
      case Bad(_) => ReadForBad(rest)
      case Whole(r, size) => if !Follows(s, r) then size else size + ReadByScan(c, rest[size..], Take(s, r, size))
  }

  /** Where the cursor is after a scan, successful or not. */
  function CursorAfterScan(c: Codec, file: seq<Byte>): (n: nat)
    ensures n <= |file|
  {
    if |file| < HEADER_SIZE then |file|
    else if file[..8] != MAGIC || GetBE(file[8..10]) != 1 || GetBE(file[10..12]) != HEADER_SIZE then HEADER_SIZE
    else HEADER_SIZE + ReadByScan(c, file[HEADER_SIZE..], StartScan(GetBE(file[12..HEADER_SIZE])))
  }

  lemma {:induction false} SuccessReadsAll(c: Codec, rest: seq<Byte>, s: Scan)
    requires ScanRest(c, rest, s).Ok?
    ensures ReadByScan(c, rest, s) == |rest|
    decreases |rest|
  {
    hide ReadFrame, Follows, Take;
    if rest != [] && ReadFrame(c, rest).Whole? {
      var f := ReadFrame(c, rest);
      SuccessReadsAll(c, rest[f.size..], Take(s, f.record, f.size));
    }
  }

  /** A successful scan leaves the cursor at the end of the file. */
  lemma SuccessfulScanEnds(c: Codec, file: seq<Byte>)
    requires ScanLog(c, file).Ok?
    ensures CursorAfterScan(c, file) == |file|
  {
    hide ScanRest, ReadByScan, GetBE;
    SuccessReadsAll(c, file[HEADER_SIZE..], StartScan(GetBE(file[12..HEADER_SIZE])));
  }

  // ---------------------------------------------------------------------------
  // What a list of records means

  ghost predicate Playable(c: Codec, s: Scan, rs: seq<Record>)
    decreases |rs|
  {
    rs == [] || (ValidRecord(c, rs[0]) && Follows(s, rs[0]) &&
      Playable(c, Take(s, rs[0], |RecordBytes(c, rs[0])|), rs[1..]))
  }

  function Play(c: Codec, s: Scan, rs: seq<Record>): Scan
    decreases |rs|
  {
    if rs == [] then s else Play(c, Take(s, rs[0], |RecordBytes(c, rs[0])|), rs[1..])
  }

  lemma FrameFields(c: Codec, payload: seq<Byte>, rest: seq<Byte>)
    requires |payload| < 0x1_0000_0000 && c.checksum(payload) < 0x1_0000_0000
    ensures var b := Frame(c, payload) + rest;
      && |b| == FRAME_SIZE + |payload| + |rest|
      && GetBE(b[..4]) == |payload| && GetBE(b[4..FRAME_SIZE]) == c.checksum(payload)
      && b[FRAME_SIZE..FRAME_SIZE + |payload|] == payload && b[FRAME_SIZE + |payload|..] == rest
  {
    var size, sum := PutBE(|payload|, 4), PutBE(c.checksum(payload), 4);
    var b := Frame(c, payload) + rest;
    assert b[..4] == size && b[4..8] == sum;
    BigEndianRoundTrip(|payload|, 4);
    BigEndianRoundTrip(c.checksum(payload), 4);
  }

  lemma ReadWholeFrame(c: Codec, r: Record, rest: seq<Byte>)
    requires ValidCodec(c) && ValidRecord(c, r)
    ensures ReadFrame(c, RecordBytes(c, r) + rest) == Whole(r, |RecordBytes(c, r)|)
    ensures (RecordBytes(c, r) + rest)[|RecordBytes(c, r)|..] == rest
  {
    PayloadFits(c, r);
    PayloadRoundTrip(c, r);
    FrameFields(c, Payload(r), rest);
    hide Payload, DecodePayload, PutBE, GetBE, Frame;
  }

  /** One whole record at a boundary is taken and the scan goes on after it. */
  lemma ScanTakesRecord(c: Codec, r: Record, rest: seq<Byte>, s: Scan)
    requires ValidCodec(c) && ValidRecord(c, r)
    ensures ScanRest(c, RecordBytes(c, r) + rest, s) ==
      if Follows(s, r) then ScanRest(c, rest, Take(s, r, |RecordBytes(c, r)|)) else Err(Corrupt)
  {
    ReadWholeFrame(c, r, rest);
    hide RecordBytes, ReadFrame, Follows, ValidRecord;
  }

  /** A record cut anywhere before its end is reported as an incomplete tail, never as corruption. */
  lemma ScanTornRecord(c: Codec, r: Record, cut: nat, s: Scan)
    requires ValidCodec(c) && ValidRecord(c, r) && cut < |RecordBytes(c, r)|
    ensures ScanRest(c, RecordBytes(c, r)[..cut], s) == Ok(s.(tail := if cut == 0 then s.tail else true))
  {
    PayloadFits(c, r);
    FrameFields(c, Payload(r), []);
    var b := RecordBytes(c, r);
    assert b + [] == b;
    if cut >= FRAME_SIZE {
      assert b[..cut][..4] == b[..4];
    }
  }

  lemma {:induction false} ScanPlaysRecords(c: Codec, rs: seq<Record>, rest: seq<Byte>, s: Scan)
    requires ValidCodec(c) && Playable(c, s, rs)
    ensures ScanRest(c, RecordsBytes(c, rs) + rest, s) == ScanRest(c, rest, Play(c, s, rs))
    decreases |rs|
  {
    if rs == [] {
      assert RecordsBytes(c, rs) + rest == rest;
    } else {
      var b, more := RecordBytes(c, rs[0]), RecordsBytes(c, rs[1..]);
      assert RecordsBytes(c, rs) + rest == b + (more + rest);
      hide RecordBytes, ScanRest;
      ScanTakesRecord(c, rs[0], more + rest, s);
      ScanPlaysRecords(c, rs[1..], rest, Take(s, rs[0], |b|));
    }
  }

  lemma HeaderFields(base: nat, rest: seq<Byte>)
    requires base < UINT64
    ensures var f := Header(base) + rest;
      && f[..8] == MAGIC && GetBE(f[8..10]) == 1 && GetBE(f[10..12]) == HEADER_SIZE && GetBE(f[12..HEADER_SIZE]) == base
      && f[HEADER_SIZE..] == rest
  {
    var f := Header(base) + rest;
    assert f[8..10] == PutBE(1, 2) && f[10..12] == PutBE(HEADER_SIZE, 2) && f[12..HEADER_SIZE] == PutBE(base, 8);
    BigEndianRoundTrip(1, 2);
    BigEndianRoundTrip(HEADER_SIZE, 2);
    BigEndianRoundTrip(base, 8);
  }

  /** A whole log scans to the meaning of its records. */
  lemma ScanWholeLog(c: Codec, base: nat, rs: seq<Record>)
    requires ValidCodec(c) && base < UINT64 && Playable(c, StartScan(base), rs)
    ensures ScanLog(c, LogBytes(c, base, rs)) == Ok(Play(c, StartScan(base), rs))
  {
    HeaderFields(base, RecordsBytes(c, rs));
    ScanPlaysRecords(c, rs, [], StartScan(base));
    assert RecordsBytes(c, rs) + [] == RecordsBytes(c, rs);
  }

  // ---------------------------------------------------------------------------
  // Cut logs

  /** How many whole records lie in the first `n` bytes. */
  function WholeCount(c: Codec, rs: seq<Record>, n: nat): (k: nat)
    ensures k <= |rs|
    decreases |rs|
  {
    if rs == [] || n < |RecordBytes(c, rs[0])| then 0
    else 1 + WholeCount(c, rs[1..], n - |RecordBytes(c, rs[0])|)
  }

  /** The scan of a cut at `n` bytes, of which the first `k` records are whole. */
  function CutScan(c: Codec, s: Scan, rs: seq<Record>, k: nat, n: nat): Scan
    requires k <= |rs|
  {
    var whole := Play(c, s, rs[..k]);
    whole.(tail := if n == |RecordsBytes(c, rs[..k])| then whole.tail else true)
  }

  lemma CutScanStep(c: Codec, s: Scan, rs: seq<Record>, k: nat, n: nat)
    requires rs != [] && k < |rs| && n >= |RecordBytes(c, rs[0])|
    ensures var b := |RecordBytes(c, rs[0])|;
      && |RecordsBytes(c, rs[..k + 1])| == b + |RecordsBytes(c, rs[1..][..k])|
      && CutScan(c, s, rs, k + 1, n) == CutScan(c, Take(s, rs[0], b), rs[1..], k, n - b)
  {
    hide RecordBytes, Take;
    assert rs[..k + 1][1..] == rs[1..][..k];
  }

  lemma {:induction false} ScanCutRecords(c: Codec, rs: seq<Record>, n: nat, s: Scan)
    requires ValidCodec(c) && Playable(c, s, rs) && n <= |RecordsBytes(c, rs)|
    ensures |RecordsBytes(c, rs[..WholeCount(c, rs, n)])| <= n
    ensures ScanRest(c, RecordsBytes(c, rs)[..n], s) == Ok(CutScan(c, s, rs, WholeCount(c, rs, n), n))
    decreases |rs|
  {
    hide RecordBytes, ScanRest, ValidCodec, ValidRecord, Follows, Take;
    if rs == [] {
      ScanNothing(c, s);
    } else {
      var b, more := RecordBytes(c, rs[0]), RecordsBytes(c, rs[1..]);
      if n < |b| {
        assert RecordsBytes(c, rs)[..n] == b[..n];
        ScanTornRecord(c, rs[0], n, s);
        assert rs[..0] == [];
      } else {
        assert RecordsBytes(c, rs)[..n] == b + more[..n - |b|];
        ScanTakesRecord(c, rs[0], more[..n - |b|], s);
        hide CutScan;
        ScanCutRecords(c, rs[1..], n - |b|, Take(s, rs[0], |b|));
        CutScanStep(c, s, rs, WholeCount(c, rs[1..], n - |b|), n);
      }
    }
  }

  lemma ScanNothing(c: Codec, s: Scan)
    ensures ScanRest(c, [], s) == Ok(s)
  {
  }

  /** Scanning any prefix that holds the header never reports corruption: it returns exactly the whole records in the
      prefix, marks the rest as an incomplete tail, and puts the valid length at the last record boundary. */
  lemma ScanCutLog(c: Codec, base: nat, rs: seq<Record>, n: nat)
    requires ValidCodec(c) && base < UINT64 && Playable(c, StartScan(base), rs)
    requires HEADER_SIZE <= n <= |LogBytes(c, base, rs)|
    ensures var k := WholeCount(c, rs, n - HEADER_SIZE);
      var whole := Play(c, StartScan(base), rs[..k]);
      && |LogBytes(c, base, rs[..k])| <= n
      && whole.valid == |LogBytes(c, base, rs[..k])|
      && ScanLog(c, LogBytes(c, base, rs)[..n]) == Ok(whole.(tail := n != whole.valid))
  {
    hide ScanRest, Play, RecordsBytes, Header, Playable, WholeCount, GetBE;
    var k := WholeCount(c, rs, n - HEADER_SIZE);
    var cut := RecordsBytes(c, rs)[..n - HEADER_SIZE];
    assert LogBytes(c, base, rs)[..n] == Header(base) + cut;
    HeaderFields(base, cut);
    ScanCutRecords(c, rs, n - HEADER_SIZE, StartScan(base));
    PlayMeasures(c, StartScan(base), rs[..k]);
  }

  lemma {:induction false} PlayMeasures(c: Codec, s: Scan, rs: seq<Record>)
    ensures var r := Play(c, s, rs);
      r.valid == s.valid + |RecordsBytes(c, rs)| && r.tail == s.tail && r.base == s.base
    decreases |rs|
  {
    if rs != [] {
      PlayMeasures(c, Take(s, rs[0], |RecordBytes(c, rs[0])|), rs[1..]);
    }
  }

  /** A file cut inside its header cannot be opened, except an empty one, which is started afresh. */
  lemma TornHeaderIsCorrupt(c: Codec, base: nat, rs: seq<Record>, n: nat)
    requires ValidCodec(c) && base < UINT64 && Playable(c, StartScan(base), rs) && n <= |LogBytes(c, base, rs)|
    ensures ScanLog(c, LogBytes(c, base, rs)[..n]).Ok? <==> n >= HEADER_SIZE
  {
    if n >= HEADER_SIZE {
      ScanCutLog(c, base, rs, n);
    }
  }
}
