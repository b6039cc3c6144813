/** The byte encodings of the log and segment formats: big-endian integers, varints and length-prefixed strings. */
module Encoding {

  import opened Bytes

  datatype Read<+T> = Fail | Got(value: T, rest: seq<Byte>)

  const UINT64: nat := 0x1_0000_0000_0000_0000

  // ---------------------------------------------------------------------------
  // Big-endian integers

  function Power(width: nat): nat {
    if width == 0 then 1 else 256 * Power(width - 1)
  }

  function PutBE(n: nat, width: nat): (r: seq<Byte>)
    ensures |r| == width
  {
    if width == 0 then [] else PutBE(n / 256, width - 1) + [n % 256]
  }

  function GetBE(s: seq<Byte>): nat {
    if s == [] then 0 else GetBE(s[..|s| - 1]) * 256 + s[|s| - 1]
  }

  lemma {:induction false} BigEndianRoundTrip(n: nat, width: nat)
    requires n < Power(width)
    ensures GetBE(PutBE(n, width)) == n
  {
    if width > 0 {
      BigEndianRoundTrip(n / 256, width - 1);
      assert PutBE(n, width)[..width - 1] == PutBE(n / 256, width - 1);
    }
  }

  // ---------------------------------------------------------------------------
  // Varints

  /** Seven bits a byte, least significant first, the high bit set on all but the last. */
  function PutUvarint(n: nat): seq<Byte> {
    if n < 128 then [n] else [n % 128 + 128] + PutUvarint(n / 128)
  }

  /** Values whose encoding fits when `i` of at most ten bytes are spent; the tenth may hold only one bit. */
  function Room(i: nat): nat
    decreases 9 - i
  {
    if i >= 9 then 2 else 128 * Room(i + 1)
  }

  function GetUvarint(s: seq<Byte>, i: nat): Read<nat>
    decreases |s|
  {
    if i >= 10 || s == [] then Fail
    else if s[0] < 128 then
      if i == 9 && s[0] > 1 then Fail else Got(s[0], s[1..])
    else
      match GetUvarint(s[1..], i + 1)
      case Fail => Fail
      case Got(high, rest) => Got(s[0] - 128 + 128 * high, rest)
  }

  function ReadUvarint(s: seq<Byte>): Read<nat> {
    GetUvarint(s, 0)
  }

  lemma SplitSeven(n: nat, bound: nat)
    requires n < 128 * bound
    ensures n == 128 * (n / 128) + n % 128 && n / 128 < bound
  {
  }

  lemma {:induction false} GetPutUvarint(n: nat, rest: seq<Byte>, i: nat)
    requires i <= 9 && n < Room(i)
    ensures GetUvarint(PutUvarint(n) + rest, i) == Got(n, rest)
    decreases n
  {
    var s := PutUvarint(n) + rest;
    if n < 128 {
      assert s[1..] == rest;
    } else {
      SplitSeven(n, Room(i + 1));
      var high, low := n / 128, n % 128;
      assert PutUvarint(n) == [low + 128] + PutUvarint(high);
      assert s[1..] == PutUvarint(high) + rest;
      GetPutUvarint(high, rest, i + 1);
    }
  }

  lemma UvarintRoundTrip(n: nat, rest: seq<Byte>)
    requires n < UINT64
    ensures ReadUvarint(PutUvarint(n) + rest) == Got(n, rest)
  {
    assert Room(0) == UINT64 by {
      assert Room(8) == 256 && Room(7) == 32768 && Room(6) == 4194304 && Room(5) == 536870912;
      assert Room(4) == 68719476736 && Room(3) == 8796093022208 && Room(2) == 1125899906842624;
      assert Room(1) == 144115188075855872;
    }
    GetPutUvarint(n, rest, 0);
  }

  lemma {:induction false} RoomBounds(i: nat)
    requires i <= 9
    ensures Room(i) >= 2 && (i < 9 ==> Room(i) >= 256)
    decreases 9 - i
  {
    if i < 9 {
      RoomBounds(i + 1);
    }
  }

  /** A varint read stops inside its input and yields a 64-bit value. */
  lemma {:induction false} GetUvarintBounds(s: seq<Byte>, i: nat)
    requires i <= 9
    ensures var r := GetUvarint(s, i);
      r.Got? ==> r.value < Room(i) && |r.rest| < |s| && r.rest == s[|s| - |r.rest|..]
    decreases |s|
  {
    RoomBounds(i);
    if s != [] && s[0] >= 128 {
      if i < 9 {
        GetUvarintBounds(s[1..], i + 1);
      } else {
        assert GetUvarint(s[1..], 10) == Fail;
      }
    }
  }

  function SevenBits(bytes: nat): nat {
    if bytes == 0 then 1 else 128 * SevenBits(bytes - 1)
  }

  lemma {:induction false} UvarintLength(n: nat, bytes: nat)
    requires bytes > 0 && n < SevenBits(bytes)
    ensures 1 <= |PutUvarint(n)| <= bytes
    decreases bytes
  {
    if n >= 128 {
      SplitSeven(n, SevenBits(bytes - 1));
      UvarintLength(n / 128, bytes - 1);
    }
  }

  // ---------------------------------------------------------------------------
  // Strings

  function PutString(v: Str): seq<Byte> {
    PutUvarint(|v|) + v
  }

  /** A length-prefixed string no longer than `limit`. */
  function ReadString(s: seq<Byte>, limit: nat): Read<Str> {
    match ReadUvarint(s)
    case Fail => Fail
    case Got(length, rest) =>
      if length > limit || |rest| < length then Fail else Got(rest[..length], rest[length..])
  }

  /** Reading back a string succeeds exactly when it is within the reader's limit. */
  lemma StringRoundTrip(v: Str, rest: seq<Byte>, limit: nat)
    requires |v| < UINT64
    ensures ReadString(PutString(v) + rest, limit) == if |v| <= limit then Got(v, rest) else Fail
  {
    assert PutString(v) + rest == PutUvarint(|v|) + (v + rest);
    UvarintRoundTrip(|v|, v + rest);
    assert (v + rest)[..|v|] == v && (v + rest)[|v|..] == rest;
  }
}
