/** Which files a scan accepts: nothing but a header, framed payloads whose lengths and checksums are right and whose
    records follow one another, and perhaps a frame cut short at the end. */
module WalAccept {

  import opened Bytes
  import opened Wrappers
  import opened Encoding
  import opened Documents
  import opened WalCodec
  import opened Formats

  function FramesBytes(c: Codec, payloads: seq<seq<Byte>>): seq<Byte> {
    if payloads == [] then [] else Frame(c, payloads[0]) + FramesBytes(c, payloads[1..])
  }

  /** The scan after these payloads, if each decodes to a record that follows those before it. */
  function Scanned(c: Codec, s: Scan, payloads: seq<seq<Byte>>): Option<Scan>
    decreases |payloads|
  {
    if payloads == [] then Some(s)
    else
      var p := payloads[0];
      match DecodePayload(c, p)
      case Err(_) => None
      case Ok(r) => if Follows(s, r) then Scanned(c, Take(s, r, FRAME_SIZE + |p|), payloads[1..]) else None
  }

  ghost predicate Sized(payloads: seq<seq<Byte>>) {
    forall i :: 0 <= i < |payloads| ==> 0 < |payloads[i]| <= 32 * 1024 * 1024
  }

  /** Nothing, part of a frame's head, or a head that announces more than is there. */
  predicate CutShort(tail: seq<Byte>) {
    |tail| < 8 || (0 < GetBE(tail[..4]) <= 32 * 1024 * 1024 && |tail| < 8 + GetBE(tail[..4]))
  }

  /** A whole frame is its length, its checksum and its payload. */
  lemma WholeFrame(c: Codec, rest: seq<Byte>) returns (payload: seq<Byte>)
    requires ValidCodec(c) && ReadFrame(c, rest).Whole?
    ensures 0 < |payload| <= 32 * 1024 * 1024 && ReadFrame(c, rest).size == 8 + |payload|
    ensures rest == Frame(c, payload) + rest[8 + |payload|..]
    ensures DecodePayload(c, payload) == Ok(ReadFrame(c, rest).record)
  {
    hide DecodePayload;
    var size := GetBE(rest[..4]);
    payload := rest[FRAME_SIZE..FRAME_SIZE + size];
    BigEndianBytes(rest[..4]);
    BigEndianBytes(rest[4..FRAME_SIZE]);
    hide GetBE, PutBE;
    assert rest == rest[..4] + rest[4..8] + payload + rest[8 + |payload|..];
  }

  lemma OneFrameMore(c: Codec, s: Scan, p: seq<Byte>, more: seq<seq<Byte>>, r: Record)
    requires DecodePayload(c, p) == Ok(r) && Follows(s, r)
    ensures FramesBytes(c, [p] + more) == Frame(c, p) + FramesBytes(c, more)
    ensures Scanned(c, s, [p] + more) == Scanned(c, Take(s, r, 8 + |p|), more)
  {
    hide DecodePayload, Take, Follows, Frame;
    assert ([p] + more)[1..] == more;
  }

  /** The end of a scan, marked when something is left over. */
  function Marked(s: Scan, tail: seq<Byte>): Scan { if tail == [] then s else s.(tail := true) }

  lemma {:induction false} AcceptedRest(c: Codec, rest: seq<Byte>, s: Scan)
      returns (payloads: seq<seq<Byte>>, tail: seq<Byte>)
    requires ValidCodec(c) && ScanRest(c, rest, s).Ok?
    ensures rest == FramesBytes(c, payloads) + tail && Sized(payloads) && CutShort(tail)
    ensures Scanned(c, s, payloads).Some?
    ensures ScanRest(c, rest, s).value == Marked(Scanned(c, s, payloads).value, tail)
    decreases |rest|
  {
    hide ReadFrame, DecodePayload, Take, Follows, Frame, CutShort, FramesBytes, Scanned, ValidCodec;
    payloads, tail := [], rest;
    var f := ReadFrame(c, rest);
    if rest != [] && f.Whole? {
      var p := WholeFrame(c, rest);
      var more, left := AcceptedRest(c, rest[f.size..], Take(s, f.record, f.size));
      payloads, tail := [p] + more, left;
      OneFrameMore(c, s, p, more, f.record);
      assert rest == Frame(c, p) + (FramesBytes(c, more) + left);
    } else {
      NoFrames(c, s, rest);
      TornIsCutShort(c, rest);
    }
  }

  lemma NoFrames(c: Codec, s: Scan, tail: seq<Byte>)
    ensures FramesBytes(c, []) + tail == tail && Scanned(c, s, []) == Some(s)
  {
  }

  lemma TornIsCutShort(c: Codec, rest: seq<Byte>)
    ensures ReadFrame(c, rest) == Torn <==> CutShort(rest)
    ensures rest == [] ==> CutShort(rest)
  {
    hide DecodePayload;
  }

  lemma {:induction false} FramesAccepted(c: Codec, payloads: seq<seq<Byte>>, tail: seq<Byte>, s: Scan)
    requires ValidCodec(c) && Sized(payloads) && CutShort(tail) && Scanned(c, s, payloads).Some?
    ensures ScanRest(c, FramesBytes(c, payloads) + tail, s) ==
      Ok(Marked(Scanned(c, s, payloads).value, tail))
    decreases |payloads|
  {
    if payloads == [] {
      TornIsCutShort(c, tail);
      assert FramesBytes(c, payloads) + tail == tail;
    } else {
      var p, more := payloads[0], FramesBytes(c, payloads[1..]) + tail;
      assert FramesBytes(c, payloads) + tail == Frame(c, p) + more;
      FrameFields(c, p, more);
      hide DecodePayload, Take, Follows, Frame, GetBE;
      FramesAccepted(c, payloads[1..], tail, Take(s, DecodePayload(c, p).value, FRAME_SIZE + |p|));
    }
  }

  /** A file that scans is a header with a 64-bit base, then framed payloads, then at most a frame cut short. */
  lemma AcceptedFile(c: Codec, file: seq<Byte>) returns (base: nat, payloads: seq<seq<Byte>>, tail: seq<Byte>)
    requires ValidCodec(c) && ScanLog(c, file).Ok?
    ensures base < UINT64 && file == Header(base) + FramesBytes(c, payloads) + tail
    ensures Sized(payloads) && CutShort(tail) && Scanned(c, StartScan(base), payloads).Some?
  {
    hide ScanRest, Frame, GetBE, FramesBytes, Scanned, Sized, CutShort, Header, ValidCodec;
    base := GetBE(file[12..HEADER_SIZE]);
    payloads, tail := AcceptedRest(c, file[HEADER_SIZE..], StartScan(base));
    HeaderRead(file);
    assert file == Header(base) + (FramesBytes(c, payloads) + tail);
  }

  lemma HeaderRead(file: seq<Byte>)
    requires |file| >= HEADER_SIZE && file[..8] == MAGIC && GetBE(file[8..10]) == 1
    requires GetBE(file[10..12]) == HEADER_SIZE
    ensures var base := GetBE(file[12..HEADER_SIZE]); base < UINT64 && file == Header(base) + file[HEADER_SIZE..]
  {
    BigEndianBytes(file[8..10]);
    BigEndianBytes(file[10..12]);
    BigEndianBytes(file[12..HEADER_SIZE]);
    BigEndianBound(file[12..HEADER_SIZE]);
    assert Power(8) == UINT64;
    hide GetBE, PutBE;
    assert file == file[..8] + file[8..10] + file[10..12] + file[12..20] + file[20..];
  }

  /** And every such file scans, to what its payloads say. */
  lemma FileAccepted(c: Codec, base: nat, payloads: seq<seq<Byte>>, tail: seq<Byte>)
    requires ValidCodec(c) && base < UINT64 && Sized(payloads) && CutShort(tail)
    requires Scanned(c, StartScan(base), payloads).Some?
    ensures ScanLog(c, Header(base) + FramesBytes(c, payloads) + tail) ==
      Ok(Marked(Scanned(c, StartScan(base), payloads).value, tail))
  {
    hide ScanRest, FramesBytes, Header, GetBE;
    FramesAccepted(c, payloads, tail, StartScan(base));
    HeaderFields(base, FramesBytes(c, payloads) + tail);
    assert Header(base) + FramesBytes(c, payloads) + tail == Header(base) + (FramesBytes(c, payloads) + tail);
  }

  // ---------------------------------------------------------------------------
  // Which payloads decode

  /** A varint that is read is the one at the start of the input. */
  lemma {:induction false} VarintRead(s: seq<Byte>, i: nat) returns (v: seq<Byte>)
    requires GetUvarint(s, i).Got?
    ensures s == v + GetUvarint(s, i).rest && GetUvarint(v, i) == Got(GetUvarint(s, i).value, [])
    decreases |s|
  {
    v := [s[0]];
    if s[0] >= 128 {
      var more := VarintRead(s[1..], i + 1);
      v := [s[0]] + more;
      assert v[1..] == more;
    } else {
      assert v[1..] == [];
    }
  }

  lemma {:induction false} VarintThen(v: seq<Byte>, rest: seq<Byte>, i: nat)
    requires GetUvarint(v, i).Got? && GetUvarint(v, i).rest == []
    ensures GetUvarint(v + rest, i) == Got(GetUvarint(v, i).value, rest)
    decreases |v|
  {
    assert (v + rest)[1..] == v[1..] + rest;
    if v[0] >= 128 {
      VarintThen(v[1..], rest, i + 1);
    }
  }

  /** `s` is a text after its length. The length may be written in more bytes than it needs. */
  ghost predicate Lengthed(s: seq<Byte>, text: Str) {
    |text| <= |s| && s[|s| - |text|..] == text && ReadUvarint(s[..|s| - |text|]) == Got(|text|, [])
  }

  lemma StringRead(s: seq<Byte>, limit: nat) returns (part: seq<Byte>)
    requires ReadString(s, limit).Got?
    ensures s == part + ReadString(s, limit).rest
    ensures Lengthed(part, ReadString(s, limit).value) && |ReadString(s, limit).value| <= limit
  {
    var v := VarintRead(s, 0);
    var text, rest := ReadString(s, limit).value, ReadString(s, limit).rest;
    part := v + text;
    assert part[..|v|] == v && part[|v|..] == text;
    assert ReadUvarint(s).rest == text + rest;
  }

  lemma StringThen(part: seq<Byte>, rest: seq<Byte>, text: Str, limit: nat)
    requires Lengthed(part, text) && |text| <= limit
    ensures ReadString(part + rest, limit) == Got(text, rest)
  {
    var v := part[..|part| - |text|];
    assert part + rest == v + (text + rest);
    VarintThen(v, text + rest, 0);
    assert (text + rest)[..|text|] == text && (text + rest)[|text|..] == rest;
  }

  /** The payload of a record: a type byte, a sequence, and for a mutation the ID and, unless it is a deletion, the
      title and the body, with nothing after them. */
  ghost predicate Encodes(c: Codec, payload: seq<Byte>, r: Record) {
    match r
    case Commit(sequence) => 0 < sequence < UINT64 && payload == [3] + PutBE(sequence, 8)
    case Change(e) =>
      && 0 < e.sequence < UINT64 && c.trim(e.mutation.document.id) != []
      && (if e.mutation.deleted
          then
            && e.mutation.document.title == [] && e.mutation.document.body == []
            && exists id :: payload == [2] + PutBE(e.sequence, 8) + id && Text(id, e.mutation.document.id)
          else exists id, title, body ::
            && payload == [1] + PutBE(e.sequence, 8) + (id + (title + body))
            && Texts(id, title, body, e.mutation.document))
  }

  ghost predicate Text(part: seq<Byte>, text: Str) {
    Lengthed(part, text) && |text| <= 32 * 1024 * 1024
  }

  ghost predicate Texts(id: seq<Byte>, title: seq<Byte>, body: seq<Byte>, d: Document) {
    Text(id, d.id) && Text(title, d.title) && Text(body, d.body)
  }

  /** A payload decodes to a record exactly when it encodes it. */
  lemma DecodesIff(c: Codec, payload: seq<Byte>, r: Record)
    ensures DecodePayload(c, payload) == Ok(r) <==> Encodes(c, payload, r)
  {
    hide Encodes, DecodePayload;
    if DecodePayload(c, payload) == Ok(r) {
      DecodedEncodes(c, payload, r);
    }
    if Encodes(c, payload, r) {
      EncodedDecodes(c, payload, r);
    }
  }

  lemma HeadRead(payload: seq<Byte>)
    requires |payload| >= 9
    ensures GetBE(payload[1..9]) < UINT64
    ensures payload == [payload[0]] + PutBE(GetBE(payload[1..9]), 8) + payload[9..]
  {
    BigEndianBytes(payload[1..9]);
    BigEndianBound(payload[1..9]);
    assert Power(8) == UINT64;
    hide GetBE, PutBE;
    assert payload == [payload[0]] + payload[1..9] + payload[9..];
  }

  lemma DecodedEncodes(c: Codec, payload: seq<Byte>, r: Record)
    requires DecodePayload(c, payload) == Ok(r)
    ensures Encodes(c, payload, r)
  {
    HeadRead(payload);
    hide GetBE, PutBE, ReadString, Lengthed;
    match r
    case Commit(sequence) => assert payload[9..] == [];
    case Change(e) =>
      var id := StringRead(payload[9..], MAX_RECORD);
      var rest := ReadString(payload[9..], MAX_RECORD).rest;
      assert Text(id, e.mutation.document.id);
      if e.mutation.deleted {
        assert id + [] == id;
      } else {
        var title := StringRead(rest, MAX_RECORD);
        var last := ReadString(rest, MAX_RECORD).rest;
        var body := StringRead(last, MAX_RECORD);
        assert body + [] == body;
        assert Texts(id, title, body, e.mutation.document);
        assert payload == [1] + PutBE(e.sequence, 8) + (id + (title + body));
      }
  }

  lemma EncodedDecodes(c: Codec, payload: seq<Byte>, r: Record)
    requires Encodes(c, payload, r)
    ensures DecodePayload(c, payload) == Ok(r)
  {
    hide GetBE, PutBE, ReadString, Lengthed;
    match r
    case Commit(sequence) =>
      SequenceField(3, sequence, []);
      assert payload == payload + [];
    case Change(e) =>
      var d := e.mutation.document;
      if e.mutation.deleted {
        var id :| payload == [2] + PutBE(e.sequence, 8) + id && Text(id, d.id);
        SequenceField(2, e.sequence, id);
        assert id + [] == id;
        StringThen(id, [], d.id, MAX_RECORD);
      } else {
        var id, title, body :|
          payload == [1] + PutBE(e.sequence, 8) + (id + (title + body)) && Texts(id, title, body, d);
        SequenceField(1, e.sequence, id + (title + body));
        StringThen(id, title + body, d.id, MAX_RECORD);
        StringThen(title, body, d.title, MAX_RECORD);
        assert body + [] == body;
        StringThen(body, [], d.body, MAX_RECORD);
      }
  }
}
