/** MQP wire codec: the fixed 56-byte header, its checksum, and the in-place
    rewrite that turns a received request into a reply. */
module Mqp {
  import opened Wrappers
  import opened Bytes
  import opened Crc16
  import opened CrcPeriod

  const MAGIC: u16 := 0x4D51
  const VERSION: u8 := 1
  const HEADER_LEN := 56
  const CRC_AT := 54
  const MAX_PACKET_LEN := 1400

  const REQUEST_DSCP_ECHO: u16 := 8
  const NO_REFLECT: u16 := 4
  /** The four low bits; anything above is a dialect we do not speak. */
  const KNOWN_FLAGS := 16

  datatype PacketType = Request | Reply

  datatype DecodeError =
    | TooShort(len: nat)
    | BadMagic(magic: u16)
    | UnsupportedVersion(got: u8)
    | UnknownType(kind: u8)
    | UnknownFlags(flags: u16)
    | LengthMismatch(declared: nat, actual: nat)
    | BadChecksum(expected: u16, stated: u16)

  datatype Header = Header(
    version: u8,
    pktType: PacketType,
    flags: u16,
    sessionId: u64,
    seqNo: u32,
    reflectorSeq: u32,
    t1: u64,
    t2: u64,
    t3: u64,
    txDscp: u8,
    rxDscp: u8,
    ttlFwd: u8,
    ttlRev: u8,
    payloadLen: u16)
  {
    static function Request(sessionId: u64, seqNo: u32, txDscp: u8, payloadLen: u16): Header {
      Header(VERSION, PacketType.Request, REQUEST_DSCP_ECHO, sessionId, seqNo, 0, 0, 0, 0, txDscp, 0, 0, 0, payloadLen)
    }

    /** One of the four single-bit flags. */
    predicate HasFlag(flag: u16)
      requires flag == 1 || flag == 2 || flag == 4 || flag == 8
    {
      flags / flag % 2 == 1
    }

    function WireLen(): nat {
      HEADER_LEN + payloadLen
    }

    /** Write the header and its checksum over the front of `buf`, leaving the
        padding alone. */
    method Encode(buf: array<u8>) returns (r: Result<(), DecodeError>)
      modifies buf
      ensures r == if buf.Length < HEADER_LEN then Err(TooShort(buf.Length)) else Ok(())
      ensures buf[..] == if buf.Length < HEADER_LEN then old(buf[..]) else Encoded(this, old(buf[..]))
    {
      if buf.Length < HEADER_LEN {
        return Err(TooShort(buf.Length));
      }
      WriteFront(buf, this);
      WriteIds(buf, this);
      WriteTimes(buf, this);
      WriteTail(buf, this);
      assert buf[..] == Covered(this) + old(buf[..])[CRC_AT..];
      Seal(buf);
      return Ok(());
    }
  }

  function TypeByte(t: PacketType): u8 {
    match t
    case Request => 1
    case Reply => 2
  }

  // The layout on the wire ----------------------------------------------------------

  function Front(h: Header): (s: seq<u8>)
    ensures |s| == 8
  {
    ToBE(MAGIC, 2) + [h.version, TypeByte(h.pktType)] + ToBE(h.flags, 2) + ToBE(0, 2)
  }

  function Ids(h: Header): (s: seq<u8>)
    ensures |s| == 16
  {
    ToBE(h.sessionId, 8) + ToBE(h.seqNo, 4) + ToBE(h.reflectorSeq, 4)
  }

  function Times(h: Header): (s: seq<u8>)
    ensures |s| == 24
  {
    ToBE(h.t1, 8) + ToBE(h.t2, 8) + ToBE(h.t3, 8)
  }

  function Tail(h: Header): (s: seq<u8>)
    ensures |s| == 6
  {
    [h.txDscp, h.rxDscp, h.ttlFwd, h.ttlRev] + ToBE(h.payloadLen, 2)
  }

  /** The 54 bytes the checksum covers. */
  function Covered(h: Header): (s: seq<u8>)
    ensures |s| == CRC_AT
  {
    Front(h) + Ids(h) + Times(h) + Tail(h)
  }

  method WriteFront(buf: array<u8>, h: Header)
    requires buf.Length >= HEADER_LEN
    modifies buf
    ensures buf[..] == Put(old(buf[..]), 0, Front(h))
  {
    ghost var was := buf[..];
    var magic, kind, flags := ToBE(MAGIC, 2), [h.version, TypeByte(h.pktType)], ToBE(h.flags, 2);
    CopyFromSlice(buf, 0, magic);
    CopyFromSlice(buf, 2, kind);
    CopyFromSlice(buf, 4, flags);
    CopyFromSlice(buf, 6, ToBE(0, 2)); // reserved
    PutJoin(was, 0, magic, kind);
    PutJoin(was, 0, magic + kind, flags);
    PutJoin(was, 0, magic + kind + flags, ToBE(0, 2));
  }

  method WriteIds(buf: array<u8>, h: Header)
    requires buf.Length >= HEADER_LEN
    modifies buf
    ensures buf[..] == Put(old(buf[..]), 8, Ids(h))
  {
    CopyFromSlice(buf, 8, ToBE(h.sessionId, 8));
    CopyFromSlice(buf, 16, ToBE(h.seqNo, 4));
    CopyFromSlice(buf, 20, ToBE(h.reflectorSeq, 4));
  }

  method WriteTimes(buf: array<u8>, h: Header)
    requires buf.Length >= HEADER_LEN
    modifies buf
    ensures buf[..] == Put(old(buf[..]), 24, Times(h))
  {
    CopyFromSlice(buf, 24, ToBE(h.t1, 8));
    CopyFromSlice(buf, 32, ToBE(h.t2, 8));
    CopyFromSlice(buf, 40, ToBE(h.t3, 8));
  }

  method WriteTail(buf: array<u8>, h: Header)
    requires buf.Length >= HEADER_LEN
    modifies buf
    ensures buf[..] == Put(old(buf[..]), 48, Tail(h))
  {
    buf[48] := h.txDscp;
    buf[49] := h.rxDscp;
    buf[50] := h.ttlFwd;
    buf[51] := h.ttlRev;
    CopyFromSlice(buf, 52, ToBE(h.payloadLen, 2));
  }

  /** `buf` with its checksum field made right. */
  function Sealed(buf: seq<u8>): (r: seq<u8>)
    requires |buf| >= HEADER_LEN
    ensures |r| == |buf|
  {
    Put(buf, CRC_AT, ToBE(Crc(buf[..CRC_AT]), 2))
  }

  function Encoded(h: Header, buf: seq<u8>): (r: seq<u8>)
    requires |buf| >= HEADER_LEN
    ensures |r| == |buf|
  {
    Sealed(Covered(h) + buf[CRC_AT..])
  }

  /** Zero the checksum field, then fill it in. */
  method Seal(buf: array<u8>)
    requires buf.Length >= HEADER_LEN
    modifies buf
    ensures buf[..] == Sealed(old(buf[..]))
  {
    ghost var was := buf[..];
    CopyFromSlice(buf, CRC_AT, ToBE(0, 2));
    var crc := Crc16Ccitt(buf[..CRC_AT]);
    assert buf[..CRC_AT] == was[..CRC_AT];
    CopyFromSlice(buf, CRC_AT, ToBE(crc, 2));
    assert buf[..] == Put(was, CRC_AT, ToBE(crc, 2));
  }

  // Decoding --------------------------------------------------------------------------

  function PacketTypeOf(v: u8): (r: Result<PacketType, DecodeError>) {
    if v == 1 then Ok(Request) else if v == 2 then Ok(Reply) else Err(UnknownType(v))
  }

  function Fields(buf: seq<u8>, t: PacketType): Header
    requires |buf| >= HEADER_LEN
  {
    Header(buf[2], t, U16(buf[4..6]), U64(buf[8..16]), U32(buf[16..20]), U32(buf[20..24]),
           U64(buf[24..32]), U64(buf[32..40]), U64(buf[40..48]),
           buf[48], buf[49], buf[50], buf[51], U16(buf[52..54]))
  }

  /** Parse and validate a header, cheapest check first. */
  function Decode(buf: seq<u8>): Result<Header, DecodeError> {
    if |buf| < HEADER_LEN then
      Err(TooShort(|buf|))
    else if U16(buf[0..2]) != MAGIC then
      Err(BadMagic(U16(buf[0..2])))
    else if buf[2] != VERSION then
      Err(UnsupportedVersion(buf[2]))
    else if PacketTypeOf(buf[3]).Err? then
      Err(UnknownType(buf[3]))
    else if U16(buf[4..6]) >= KNOWN_FLAGS then
      Err(UnknownFlags(U16(buf[4..6]) / KNOWN_FLAGS * KNOWN_FLAGS))
    else if U16(buf[54..56]) != Crc(buf[0..54]) then
      Err(BadChecksum(Crc(buf[0..54]), U16(buf[54..56])))
    else if U16(buf[52..54]) != |buf| - HEADER_LEN then
      Err(LengthMismatch(U16(buf[52..54]), |buf| - HEADER_LEN))
    else
      Ok(Fields(buf, PacketTypeOf(buf[3]).value))
  }

  // Rewriting a packet in place -----------------------------------------------------------

  method StampT1(buf: array<u8>, t1: u64) returns (r: Result<(), DecodeError>)
    modifies buf
    ensures r == if buf.Length < HEADER_LEN then Err(TooShort(buf.Length)) else Ok(())
    ensures buf[..] == if buf.Length < HEADER_LEN then old(buf[..]) else Sealed(Put(old(buf[..]), 24, ToBE(t1, 8)))
  {
    if buf.Length < HEADER_LEN {
      return Err(TooShort(buf.Length));
    }
    CopyFromSlice(buf, 24, ToBE(t1, 8));
    Seal(buf);
    return Ok(());
  }

  function ReplyBytes(buf: seq<u8>, t2: u64, reflectorSeq: u32, rxDscp: u8, ttlFwd: u8, ttlRev: u8): (r: seq<u8>)
    requires |buf| >= HEADER_LEN
    ensures |r| == |buf|
  {
    var numbered := Put(Put(buf, 3, [TypeByte(Reply)]), 20, ToBE(reflectorSeq, 4));
    Put(Put(numbered, 32, ToBE(t2, 8)), 49, [rxDscp, ttlFwd, ttlRev])
  }

  method MakeReplyInPlace(buf: array<u8>, t2: u64, reflectorSeq: u32, rxDscp: u8, ttlFwd: u8, ttlRev: u8)
    returns (r: Result<(), DecodeError>)
    modifies buf
    ensures r == if buf.Length < HEADER_LEN then Err(TooShort(buf.Length)) else Ok(())
    ensures buf[..] ==
      if buf.Length < HEADER_LEN then old(buf[..])
      else ReplyBytes(old(buf[..]), t2, reflectorSeq, rxDscp, ttlFwd, ttlRev)
  {
    if buf.Length < HEADER_LEN {
      return Err(TooShort(buf.Length));
    }
    buf[3] := TypeByte(Reply);
    assert buf[..] == Put(old(buf[..]), 3, [TypeByte(Reply)]);
    CopyFromSlice(buf, 20, ToBE(reflectorSeq, 4));
    CopyFromSlice(buf, 32, ToBE(t2, 8));
    ghost var before := buf[..];
    buf[49] := rxDscp;
    buf[50] := ttlFwd;
    buf[51] := ttlRev;
    assert buf[..] == Put(before, 49, [rxDscp, ttlFwd, ttlRev]);
    return Ok(());
  }

  method StampT3(buf: array<u8>, t3: u64) returns (r: Result<(), DecodeError>)
    modifies buf
    ensures r == if buf.Length < HEADER_LEN then Err(TooShort(buf.Length)) else Ok(())
    ensures buf[..] == if buf.Length < HEADER_LEN then old(buf[..]) else Sealed(Put(old(buf[..]), 40, ToBE(t3, 8)))
  {
    if buf.Length < HEADER_LEN {
      return Err(TooShort(buf.Length));
    }
    CopyFromSlice(buf, 40, ToBE(t3, 8));
    Seal(buf);
    return Ok(());
  }

  // Round trips ------------------------------------------------------------------------------

  lemma SealedChecks(buf: seq<u8>)
    requires |buf| >= HEADER_LEN
    ensures var r := Sealed(buf);
      U16(r[54..56]) == Crc(r[0..54]) && r[..CRC_AT] == buf[..CRC_AT] && r[HEADER_LEN..] == buf[HEADER_LEN..]
  {
    U16RoundTrip(Crc(buf[..CRC_AT]));
    assert Sealed(buf)[0..54] == buf[0..54] == buf[..CRC_AT];
  }

  lemma FrontLayout(h: Header, e: seq<u8>)
    requires |e| >= HEADER_LEN && e[0..8] == Front(h)
    ensures e[0..2] == ToBE(MAGIC, 2) && e[2] == h.version && e[3] == TypeByte(h.pktType)
    ensures e[4..6] == ToBE(h.flags, 2) && e[6..8] == ToBE(0, 2)
  {
    var f := Front(h);
    assert forall i :: 0 <= i < 8 ==> e[i] == f[i];
  }

  lemma IdsLayout(h: Header, e: seq<u8>)
    requires |e| >= HEADER_LEN && e[8..24] == Ids(h)
    ensures e[8..16] == ToBE(h.sessionId, 8) && e[16..20] == ToBE(h.seqNo, 4) && e[20..24] == ToBE(h.reflectorSeq, 4)
  {
    var f := Ids(h);
    assert forall i :: 8 <= i < 24 ==> e[i] == f[i - 8];
  }

  lemma TimesLayout(h: Header, e: seq<u8>)
    requires |e| >= HEADER_LEN && e[24..48] == Times(h)
    ensures e[24..32] == ToBE(h.t1, 8) && e[32..40] == ToBE(h.t2, 8) && e[40..48] == ToBE(h.t3, 8)
  {
    var f := Times(h);
    assert forall i :: 24 <= i < 48 ==> e[i] == f[i - 24];
  }

  lemma TailLayout(h: Header, e: seq<u8>)
    requires |e| >= HEADER_LEN && e[48..54] == Tail(h)
    ensures e[48] == h.txDscp && e[49] == h.rxDscp && e[50] == h.ttlFwd && e[51] == h.ttlRev
    ensures e[52..54] == ToBE(h.payloadLen, 2)
  {
    var f := Tail(h);
    assert forall i :: 48 <= i < 54 ==> e[i] == f[i - 48];
  }

  lemma EncodedLayout(h: Header, buf: seq<u8>)
    requires |buf| >= HEADER_LEN
    ensures var e := Encoded(h, buf);
      e[0..8] == Front(h) && e[8..24] == Ids(h) && e[24..48] == Times(h) && e[48..54] == Tail(h)
    ensures Encoded(h, buf)[HEADER_LEN..] == buf[HEADER_LEN..]
    ensures var e := Encoded(h, buf); U16(e[54..56]) == Crc(e[0..54])
  {
    var c := Covered(h) + buf[CRC_AT..];
    SealedChecks(c);
    var e := Encoded(h, buf);
    assert c[0..8] == Front(h) && c[8..24] == Ids(h) && c[24..48] == Times(h) && c[48..54] == Tail(h);
    assert c[HEADER_LEN..] == buf[HEADER_LEN..];
  }

  /** `decode` undoes `encode` exactly for the headers a version-1 peer may send,
      in a buffer of the declared size. */
  lemma DecodeEncoded(h: Header, buf: seq<u8>)
    requires |buf| >= HEADER_LEN
    ensures Decode(Encoded(h, buf)) == Ok(h) <==> h.version == VERSION && h.flags < KNOWN_FLAGS && |buf| == h.WireLen()
  {
    var e := Encoded(h, buf);
    EncodedLayout(h, buf);
    FrontLayout(h, e);
    IdsLayout(h, e);
    TimesLayout(h, e);
    TailLayout(h, e);
    U16RoundTrip(MAGIC);
    U16RoundTrip(h.flags);
    U16RoundTrip(h.payloadLen);
    U32RoundTrip(h.seqNo);
    U32RoundTrip(h.reflectorSeq);
    U64RoundTrip(h.sessionId);
    U64RoundTrip(h.t1);
    U64RoundTrip(h.t2);
    U64RoundTrip(h.t3);
  }

  /** Where each field lies in an encoded packet, whether or not it would be accepted. */
  lemma EncodedBytes(h: Header, buf: seq<u8>)
    requires |buf| >= 56
    ensures var e := Encoded(h, buf);
      && |e| == |buf|
      && e[0] == 0x4D && e[1] == 0x51 && e[2] == h.version && e[3] == (if h.pktType == Request then 1 else 2)
      && FromBE(e[4..6]) == h.flags && e[6] == 0 && e[7] == 0
    ensures var e := Encoded(h, buf);
      && FromBE(e[8..16]) == h.sessionId && FromBE(e[16..20]) == h.seqNo && FromBE(e[20..24]) == h.reflectorSeq
      && FromBE(e[24..32]) == h.t1 && FromBE(e[32..40]) == h.t2 && FromBE(e[40..48]) == h.t3
    ensures var e := Encoded(h, buf);
      && e[48] == h.txDscp && e[49] == h.rxDscp && e[50] == h.ttlFwd && e[51] == h.ttlRev
      && FromBE(e[52..54]) == h.payloadLen && FromBE(e[54..56]) == Crc(e[0..54]) && e[56..] == buf[56..]
  {
    var e := Encoded(h, buf);
    EncodedLayout(h, buf);
    FrontLayout(h, e);
    IdsLayout(h, e);
    TimesLayout(h, e);
    TailLayout(h, e);
    FirstBytes(e);
    FieldsEncoded(h);
  }

  lemma FieldsEncoded(h: Header)
    ensures FromBE(ToBE(h.flags, 2)) == h.flags && FromBE(ToBE(h.payloadLen, 2)) == h.payloadLen
    ensures FromBE(ToBE(h.seqNo, 4)) == h.seqNo && FromBE(ToBE(h.reflectorSeq, 4)) == h.reflectorSeq
    ensures FromBE(ToBE(h.sessionId, 8)) == h.sessionId
    ensures FromBE(ToBE(h.t1, 8)) == h.t1 && FromBE(ToBE(h.t2, 8)) == h.t2 && FromBE(ToBE(h.t3, 8)) == h.t3
  {
    Widths();
    FromToBE(h.flags, 2);
    FromToBE(h.payloadLen, 2);
    FromToBE(h.seqNo, 4);
    FromToBE(h.reflectorSeq, 4);
    FromToBE(h.sessionId, 8);
    FromToBE(h.t1, 8);
    FromToBE(h.t2, 8);
    FromToBE(h.t3, 8);
  }

  lemma FirstBytes(e: seq<u8>)
    requires |e| >= 8 && e[0..2] == ToBE(MAGIC, 2) && e[6..8] == ToBE(0, 2)
    ensures e[0] == 0x4D && e[1] == 0x51 && e[6] == 0 && e[7] == 0
  {
    TwoBytes(0x4D, 0x51);
    TwoBytes(0, 0);
    assert e[0] == e[0..2][0] && e[1] == e[0..2][1] && e[6] == e[6..8][0] && e[7] == e[6..8][1];
  }

  /** The packet opens with the letters MQ, version 1, type 1 or 2, and flags below 16. */
  predicate Opens(buf: seq<u8>) {
    |buf| >= 56 && buf[0] == 0x4D && buf[1] == 0x51 && buf[2] == 1 && (buf[3] == 1 || buf[3] == 2) &&
    buf[4] == 0 && buf[5] < 16
  }

  lemma OpeningBytes(buf: seq<u8>)
    requires |buf| >= 56
    ensures U16(buf[0..2]) == 0x4D51 <==> buf[0] == 0x4D && buf[1] == 0x51
    ensures U16(buf[4..6]) < 16 <==> buf[4] == 0 && buf[5] < 16
  {
    assert buf[0..2] == [buf[0], buf[1]] && buf[4..6] == [buf[4], buf[5]];
    TwoBytes(buf[0], buf[1]);
    TwoBytes(buf[4], buf[5]);
  }

  /** What is accepted. */
  lemma DecodedExactly(buf: seq<u8>)
    ensures Decode(buf).Ok? <==>
      Opens(buf) && FromBE(buf[54..56]) == Crc(buf[0..54]) && FromBE(buf[52..54]) == |buf| - 56
  {
    if |buf| >= 56 {
      OpeningBytes(buf);
    }
  }

  /** And as what. */
  lemma DecodedFields(buf: seq<u8>, h: Header)
    requires |buf| >= 56 && Decode(buf) == Ok(h)
    ensures h.version == 1 && h.pktType == (if buf[3] == 1 then Request else Reply)
    ensures h.flags == U16(buf[4..6]) && h.sessionId == U64(buf[8..16])
    ensures h.seqNo == U32(buf[16..20]) && h.reflectorSeq == U32(buf[20..24])
    ensures h.t1 == U64(buf[24..32]) && h.t2 == U64(buf[32..40]) && h.t3 == U64(buf[40..48])
    ensures h.txDscp == buf[48] && h.rxDscp == buf[49] && h.ttlFwd == buf[50] && h.ttlRev == buf[51]
    ensures h.payloadLen == U16(buf[52..54])
  {
  }

  /** Why a packet is refused: the first of the checks that fails. */
  lemma RefusedBecause(buf: seq<u8>, n: nat, v: u16)
    ensures Decode(buf) == Err(TooShort(n)) <==> |buf| < 56 && n == |buf|
    ensures Decode(buf) == Err(BadMagic(v)) <==>
      |buf| >= 56 && (buf[0] != 0x4D || buf[1] != 0x51) && v == FromBE(buf[0..2])
    ensures v < 256 ==> (Decode(buf) == Err(UnsupportedVersion(v)) <==>
      |buf| >= 56 && buf[0] == 0x4D && buf[1] == 0x51 && buf[2] != 1 && v == buf[2])
    ensures v < 256 ==> (Decode(buf) == Err(UnknownType(v)) <==>
      |buf| >= 56 && buf[0] == 0x4D && buf[1] == 0x51 && buf[2] == 1 && buf[3] != 1 && buf[3] != 2 && v == buf[3])
    ensures Decode(buf) == Err(UnknownFlags(v)) <==>
      && |buf| >= 56 && buf[0] == 0x4D && buf[1] == 0x51 && buf[2] == 1 && (buf[3] == 1 || buf[3] == 2)
      && (buf[4] != 0 || buf[5] >= 16) && v == FromBE(buf[4..6]) / 16 * 16
  {
    if |buf| >= 56 {
      OpeningBytes(buf);
    }
  }

  /** The checksum is looked at before the length. */
  lemma RefusedByContent(buf: seq<u8>, expected: u16, stated: u16, declared: nat, actual: nat)
    ensures Decode(buf) == Err(BadChecksum(expected, stated)) <==>
      && Opens(buf) && expected == Crc(buf[0..54]) && stated == FromBE(buf[54..56]) && stated != expected
    ensures Decode(buf) == Err(LengthMismatch(declared, actual)) <==>
      && Opens(buf) && FromBE(buf[54..56]) == Crc(buf[0..54])
      && declared == FromBE(buf[52..54]) && actual == |buf| - 56 && declared != actual
  {
    if |buf| >= 56 {
      OpeningBytes(buf);
    }
  }

  lemma SameFront(e: seq<u8>, buf: seq<u8>)
    requires |e| >= HEADER_LEN && |buf| >= HEADER_LEN
    requires e[0..2] == buf[0..2] && e[2] == buf[2] && e[3] == buf[3] && e[4..6] == buf[4..6] && e[6..8] == buf[6..8]
    ensures e[0..8] == buf[0..8]
  {
    assert e[0..8] == e[0..2] + [e[2], e[3]] + e[4..6] + e[6..8];
    assert buf[0..8] == buf[0..2] + [buf[2], buf[3]] + buf[4..6] + buf[6..8];
  }

  lemma SameMiddle(e: seq<u8>, buf: seq<u8>, a: nat, b: nat, c: nat, d: nat)
    requires a <= b <= c <= d <= |e| && d <= |buf|
    requires e[a..b] == buf[a..b] && e[b..c] == buf[b..c] && e[c..d] == buf[c..d]
    ensures e[a..d] == buf[a..d]
  {
    SameJoined(e, buf, a, b, c);
    SameJoined(e, buf, a, c, d);
  }

  lemma SameJoined(e: seq<u8>, buf: seq<u8>, a: nat, b: nat, c: nat)
    requires a <= b <= c <= |e| && c <= |buf|
    requires e[a..b] == buf[a..b] && e[b..c] == buf[b..c]
    ensures e[a..c] == buf[a..c]
  {
    assert e[a..c] == e[a..b] + e[b..c];
    assert buf[a..c] == buf[a..b] + buf[b..c];
  }

  lemma SameTail(e: seq<u8>, buf: seq<u8>)
    requires |e| >= HEADER_LEN && |buf| >= HEADER_LEN
    requires e[48] == buf[48] && e[49] == buf[49] && e[50] == buf[50] && e[51] == buf[51] && e[52..54] == buf[52..54]
    ensures e[48..54] == buf[48..54]
  {
    assert e[48..54] == [e[48], e[49], e[50], e[51]] + e[52..54];
    assert buf[48..54] == [buf[48], buf[49], buf[50], buf[51]] + buf[52..54];
  }

  lemma FieldsRestored(buf: seq<u8>, t: PacketType)
    requires |buf| >= HEADER_LEN
    ensures var h := Fields(buf, t);
      && ToBE(h.flags, 2) == buf[4..6] && ToBE(h.sessionId, 8) == buf[8..16]
      && ToBE(h.seqNo, 4) == buf[16..20] && ToBE(h.reflectorSeq, 4) == buf[20..24]
      && ToBE(h.t1, 8) == buf[24..32] && ToBE(h.t2, 8) == buf[32..40] && ToBE(h.t3, 8) == buf[40..48]
      && ToBE(h.payloadLen, 2) == buf[52..54]
  {
    ToFromBE(buf[4..6]);
    ToFromBE(buf[8..16]);
    ToFromBE(buf[16..20]);
    ToFromBE(buf[20..24]);
    ToFromBE(buf[24..32]);
    ToFromBE(buf[32..40]);
    ToFromBE(buf[40..48]);
    ToFromBE(buf[52..54]);
  }

  /** The converse: re-encoding what was decoded restores the packet, unless the
      sender had put something in the reserved bytes, which decoding ignores. */
  lemma EncodeDecoded(buf: seq<u8>, h: Header)
    requires Decode(buf) == Ok(h)
    ensures Encoded(h, buf) == buf <==> buf[6..8] == ToBE(0, 2)
  {
    var e := Encoded(h, buf);
    EncodedLayout(h, buf);
    FrontLayout(h, e);
    IdsLayout(h, e);
    TimesLayout(h, e);
    TailLayout(h, e);
    FieldsRestored(buf, h.pktType);
    ToFromBE(buf[0..2]);
    if buf[6..8] == ToBE(0, 2) {
      SameFront(e, buf);
      SameMiddle(e, buf, 8, 16, 20, 24);
      SameMiddle(e, buf, 24, 32, 40, 48);
      SameTail(e, buf);
      SameChecksum(e, buf);
    }
  }

  lemma SameChecksum(e: seq<u8>, buf: seq<u8>)
    requires |e| == |buf| >= HEADER_LEN
    requires e[0..8] == buf[0..8] && e[8..24] == buf[8..24] && e[24..48] == buf[24..48] && e[48..54] == buf[48..54]
    requires e[HEADER_LEN..] == buf[HEADER_LEN..]
    requires U16(e[54..56]) == Crc(e[0..54]) && U16(buf[54..56]) == Crc(buf[0..54])
    ensures e == buf
  {
    assert e[0..54] == e[0..8] + e[8..24] + e[24..48] + e[48..54];
    assert buf[0..54] == buf[0..8] + buf[8..24] + buf[24..48] + buf[48..54];
    ToFromBE(e[54..56]);
    ToFromBE(buf[54..56]);
    assert e == e[0..54] + e[54..56] + e[HEADER_LEN..];
    assert buf == buf[0..54] + buf[54..56] + buf[HEADER_LEN..];
  }

  function ReplyTo(h: Header, t2: u64, t3: u64, reflectorSeq: u32, rxDscp: u8, ttlFwd: u8, ttlRev: u8): Header {
    h.(pktType := Reply, reflectorSeq := reflectorSeq, t2 := t2, t3 := t3,
       rxDscp := rxDscp, ttlFwd := ttlFwd, ttlRev := ttlRev)
  }

  /** What the reflector puts back on the wire. */
  function Reflected(buf: seq<u8>, t2: u64, t3: u64, reflectorSeq: u32, rxDscp: u8, ttlFwd: u8, ttlRev: u8)
    : (r: seq<u8>)
    requires |buf| >= HEADER_LEN
    ensures |r| == |buf|
  {
    Sealed(Put(ReplyBytes(buf, t2, reflectorSeq, rxDscp, ttlFwd, ttlRev), 40, ToBE(t3, 8)))
  }

  /** What the rewrite does not write it keeps. */
  lemma ReplyKeeps(buf: seq<u8>, t2: u64, reflectorSeq: u32, rxDscp: u8, ttlFwd: u8, ttlRev: u8, lo: nat, hi: nat)
    requires |buf| >= HEADER_LEN && lo <= hi <= |buf|
    requires hi <= 3 || (4 <= lo && hi <= 20) || (24 <= lo && hi <= 32) || (40 <= lo && hi <= 49) || 52 <= lo
    ensures ReplyBytes(buf, t2, reflectorSeq, rxDscp, ttlFwd, ttlRev)[lo..hi] == buf[lo..hi]
  {
    var a := Put(buf, 3, [TypeByte(Reply)]);
    var b := Put(a, 20, ToBE(reflectorSeq, 4));
    var c := Put(b, 32, ToBE(t2, 8));
    var d := Put(c, 49, [rxDscp, ttlFwd, ttlRev]);
    assert a[lo..hi] == buf[lo..hi];
    assert b[lo..hi] == a[lo..hi];
    assert c[lo..hi] == b[lo..hi];
    assert d[lo..hi] == c[lo..hi];
  }

  lemma ReplyWrites(buf: seq<u8>, t2: u64, reflectorSeq: u32, rxDscp: u8, ttlFwd: u8, ttlRev: u8)
    requires |buf| >= HEADER_LEN
    ensures var d := ReplyBytes(buf, t2, reflectorSeq, rxDscp, ttlFwd, ttlRev);
      && d[3..4] == [TypeByte(Reply)] && d[20..24] == ToBE(reflectorSeq, 4) && d[32..40] == ToBE(t2, 8)
      && d[49..52] == [rxDscp, ttlFwd, ttlRev]
  {
    var a := Put(buf, 3, [TypeByte(Reply)]);
    var b := Put(a, 20, ToBE(reflectorSeq, 4));
    var c := Put(b, 32, ToBE(t2, 8));
    var d := Put(c, 49, [rxDscp, ttlFwd, ttlRev]);
    assert d[3..4] == c[3..4] == b[3..4] == a[3..4];
    assert d[20..24] == c[20..24] == b[20..24];
    assert d[32..40] == c[32..40];
  }

  lemma ReplyLayout(buf: seq<u8>, t2: u64, reflectorSeq: u32, rxDscp: u8, ttlFwd: u8, ttlRev: u8)
    requires |buf| >= HEADER_LEN
    ensures var d := ReplyBytes(buf, t2, reflectorSeq, rxDscp, ttlFwd, ttlRev);
      && d[0..2] == buf[0..2] && d[2..3] == buf[2..3] && d[3..4] == [TypeByte(Reply)]
      && d[4..6] == buf[4..6] && d[6..8] == buf[6..8] && d[8..16] == buf[8..16]
      && d[16..20] == buf[16..20] && d[20..24] == ToBE(reflectorSeq, 4)
      && d[24..32] == buf[24..32] && d[32..40] == ToBE(t2, 8)
      && d[48..49] == buf[48..49] && d[49..52] == [rxDscp, ttlFwd, ttlRev]
      && d[52..54] == buf[52..54] && d[HEADER_LEN..|d|] == buf[HEADER_LEN..|buf|]
  {
    ReplyWrites(buf, t2, reflectorSeq, rxDscp, ttlFwd, ttlRev);
    ReplyKeeps(buf, t2, reflectorSeq, rxDscp, ttlFwd, ttlRev, 0, 2);
    ReplyKeeps(buf, t2, reflectorSeq, rxDscp, ttlFwd, ttlRev, 2, 3);
    ReplyKeeps(buf, t2, reflectorSeq, rxDscp, ttlFwd, ttlRev, 4, 6);
    ReplyKeeps(buf, t2, reflectorSeq, rxDscp, ttlFwd, ttlRev, 6, 8);
    ReplyKeeps(buf, t2, reflectorSeq, rxDscp, ttlFwd, ttlRev, 8, 16);
    ReplyKeeps(buf, t2, reflectorSeq, rxDscp, ttlFwd, ttlRev, 16, 20);
    ReplyKeeps(buf, t2, reflectorSeq, rxDscp, ttlFwd, ttlRev, 24, 32);
    ReplyKeeps(buf, t2, reflectorSeq, rxDscp, ttlFwd, ttlRev, 48, 49);
    ReplyKeeps(buf, t2, reflectorSeq, rxDscp, ttlFwd, ttlRev, 52, 54);
    ReplyKeeps(buf, t2, reflectorSeq, rxDscp, ttlFwd, ttlRev, HEADER_LEN, |buf|);
  }

  /** Rewriting the bytes of a packet is updating the record it carries: every
      field the reflector does not own, the reserved bytes and the padding survive. */
  lemma ReflectionUpdatesRecord(buf: seq<u8>, h: Header,
      t2: u64, t3: u64, reflectorSeq: u32, rxDscp: u8, ttlFwd: u8, ttlRev: u8)
    requires Decode(buf) == Ok(h)
    ensures var r := Reflected(buf, t2, t3, reflectorSeq, rxDscp, ttlFwd, ttlRev);
      && Decode(r) == Ok(ReplyTo(h, t2, t3, reflectorSeq, rxDscp, ttlFwd, ttlRev))
      && Decode(r) == Ok(Header(h.version, Reply, h.flags, h.sessionId, h.seqNo, reflectorSeq, h.t1, t2, t3,
                                h.txDscp, rxDscp, ttlFwd, ttlRev, h.payloadLen))
      && r[6..8] == buf[6..8]
      && r[HEADER_LEN..|r|] == buf[HEADER_LEN..|buf|]
  {
    ReplyLayout(buf, t2, reflectorSeq, rxDscp, ttlFwd, ttlRev);
    var d := ReplyBytes(buf, t2, reflectorSeq, rxDscp, ttlFwd, ttlRev);
    assert d[2] == d[2..3][0] == buf[2..3][0] && d[3] == d[3..4][0] && d[48] == d[48..49][0] == buf[48..49][0];
    var m := d[49..52];
    assert d[49] == m[0] && d[50] == m[1] && d[51] == m[2];
    U32RoundTrip(reflectorSeq);
    U64RoundTrip(t2);
    StampedDecodes(d, 40, t3, Reply, ReplyTo(h, t2, t3, reflectorSeq, rxDscp, ttlFwd, ttlRev));
  }

  /** Stamping T1 (at 24) or T3 (at 40) and resealing touches nothing else. */
  lemma StampedKeeps(d: seq<u8>, at: nat, t: u64, lo: nat, hi: nat)
    requires |d| >= HEADER_LEN && (at == 24 || at == 40)
    requires lo <= hi <= |d| && (hi <= at || (at + 8 <= lo && hi <= CRC_AT) || HEADER_LEN <= lo)
    ensures Sealed(Put(d, at, ToBE(t, 8)))[lo..hi] == d[lo..hi]
  {
    var e := Put(d, at, ToBE(t, 8));
    assert e[lo..hi] == d[lo..hi];
    assert Sealed(e)[lo..hi] == e[lo..hi];
  }

  lemma StampedFields(d: seq<u8>, at: nat, t: u64, kind: PacketType)
    requires |d| >= HEADER_LEN && (at == 24 || at == 40)
    ensures var r := Sealed(Put(d, at, ToBE(t, 8)));
      Fields(r, kind) == if at == 24 then Fields(d, kind).(t1 := t) else Fields(d, kind).(t3 := t)
  {
    var e := Put(d, at, ToBE(t, 8));
    var r := Sealed(e);
    assert r[at..at + 8] == e[at..at + 8] == ToBE(t, 8);
    U64RoundTrip(t);
    StampedKeeps(d, at, t, 2, 3);
    StampedKeeps(d, at, t, 4, 6);
    StampedKeeps(d, at, t, 8, 16);
    StampedKeeps(d, at, t, 16, 20);
    StampedKeeps(d, at, t, 20, 24);
    if at == 24 { StampedKeeps(d, at, t, 40, 48); } else { StampedKeeps(d, at, t, 24, 32); }
    StampedKeeps(d, at, t, 32, 40);
    StampedKeeps(d, at, t, 48, 54);
    assert r[2] == r[2..3][0] == d[2..3][0];
    var m, o := r[48..54], d[48..54];
    assert m[0] == o[0] && m[1] == o[1] && m[2] == o[2] && m[3] == o[3] && r[52..54] == m[4..6] && d[52..54] == o[4..6];
  }

  /** What decoding checks, field by field. */
  predicate Checks(r: seq<u8>, kind: PacketType) {
    && |r| >= HEADER_LEN && U16(r[0..2]) == MAGIC && r[2..4] == [VERSION, TypeByte(kind)]
    && U16(r[4..6]) < KNOWN_FLAGS && U16(r[54..56]) == Crc(r[0..54]) && U16(r[52..54]) == |r| - HEADER_LEN
  }

  lemma CheckedDecodes(r: seq<u8>, kind: PacketType)
    requires Checks(r, kind)
    ensures Decode(r) == Ok(Fields(r, kind))
  {
    var m := r[2..4];
    assert r[2] == m[0] && r[3] == m[1];
  }

  lemma StampedDecodes(d: seq<u8>, at: nat, t: u64, kind: PacketType, h: Header)
    requires |d| >= HEADER_LEN && (at == 24 || at == 40)
    requires U16(d[0..2]) == MAGIC && d[2] == VERSION && d[3] == TypeByte(kind) && U16(d[4..6]) < KNOWN_FLAGS
    requires U16(d[52..54]) == |d| - HEADER_LEN
    requires h == if at == 24 then Fields(d, kind).(t1 := t) else Fields(d, kind).(t3 := t)
    ensures var r := Sealed(Put(d, at, ToBE(t, 8)));
      Decode(r) == Ok(h) && r[6..8] == d[6..8] && r[HEADER_LEN..|r|] == d[HEADER_LEN..|d|]
  {
    StampedChecks(d, at, t, kind);
    CheckedDecodes(Sealed(Put(d, at, ToBE(t, 8))), kind);
    StampedFields(d, at, t, kind);
    StampedKeeps(d, at, t, 6, 8);
    StampedKeeps(d, at, t, HEADER_LEN, |d|);
  }

  lemma StampedChecks(d: seq<u8>, at: nat, t: u64, kind: PacketType)
    requires |d| >= HEADER_LEN && (at == 24 || at == 40)
    requires U16(d[0..2]) == MAGIC && d[2] == VERSION && d[3] == TypeByte(kind) && U16(d[4..6]) < KNOWN_FLAGS
    requires U16(d[52..54]) == |d| - HEADER_LEN
    ensures Checks(Sealed(Put(d, at, ToBE(t, 8))), kind)
  {
    SealedChecks(Put(d, at, ToBE(t, 8)));
    StampedKeeps(d, at, t, 0, 2);
    StampedKeeps(d, at, t, 2, 4);
    StampedKeeps(d, at, t, 4, 6);
    StampedKeeps(d, at, t, 52, 54);
    assert d[2..4] == [d[2], d[3]];
  }

  lemma StampT1UpdatesRecord(buf: seq<u8>, h: Header, t1: u64)
    requires Decode(buf) == Ok(h)
    ensures Decode(Sealed(Put(buf, 24, ToBE(t1, 8)))) == Ok(h.(t1 := t1))
  {
    StampedDecodes(buf, 24, t1, h.pktType, h.(t1 := t1));
  }

  // Corruption -----------------------------------------------------------------------------------

  /** Which header bits of `sent` arrive flipped in `got`. */
  function Corruption(sent: seq<u8>, got: seq<u8>): (e: seq<bool>)
    requires |sent| >= HEADER_LEN && |got| >= HEADER_LEN
    ensures |e| == 8 * HEADER_LEN
  {
    Xor(Bits(sent[..HEADER_LEN]), Bits(got[..HEADER_LEN]))
  }

  lemma AcceptedHasNoResidue(buf: seq<u8>)
    requires Decode(buf).Ok?
    ensures Crc(buf[..HEADER_LEN]) == 0
  {
    ResidueIsZero(buf[0..54], buf[54..56]);
    assert buf[0..54] + buf[54..56] == buf[..HEADER_LEN];
  }

  /** Of two packets the decoder accepts, the header difference is invisible to
      the checksum; so a difference it can see is never accepted. */
  lemma AcceptedDifferenceUnnoticed(sent: seq<u8>, got: seq<u8>)
    requires Decode(sent).Ok? && Decode(got).Ok?
    ensures Unnoticed(Corruption(sent, got))
  {
    AcceptedHasNoResidue(sent);
    AcceptedHasNoResidue(got);
    SameCrcIffUnnoticed(sent[..HEADER_LEN], got[..HEADER_LEN]);
  }

  /** The errors the checksum is sure to notice in a header: a burst of at most sixteen
      bits, at any offset; any odd number of bits; any two bits. */
  ghost predicate SurelyNoticed(e: seq<bool>) {
    (exists lo :: Burst(e, lo)) || Weight(e) % 2 == 1 || exists i, j :: TwoBits(e, i, j)
  }

  lemma HeaderErrorNoticed(e: seq<bool>)
    requires |e| == 8 * HEADER_LEN && SurelyNoticed(e)
    ensures !Unnoticed(e)
  {
    if Weight(e) % 2 == 1 {
      OddNoticed(e);
    } else if lo :| Burst(e, lo) {
      BurstNoticed(e, lo);
    } else {
      var i, j :| TwoBits(e, i, j);
      TwoBitsUnnoticed(e, i, j);
    }
  }

  lemma CorruptionRejected(sent: seq<u8>, got: seq<u8>)
    requires Decode(sent).Ok? && |got| >= HEADER_LEN && SurelyNoticed(Corruption(sent, got))
    ensures Decode(got).Err?
  {
    HeaderErrorNoticed(Corruption(sent, got));
    if Decode(got).Ok? {
      AcceptedDifferenceUnnoticed(sent, got);
    }
  }

  lemma {:induction false} BitsOfByteAt(data: seq<u8>, k: nat)
    requires k < |data|
    ensures Bits(data)[8 * k..8 * k + 8] == WordBits(data[k], 8)
  {
    var n := |data| - 1;
    var before, last := Bits(data[..n]), WordBits(data[n], 8);
    assert Bits(data) == before + last;
    if k < n {
      BitsOfByteAt(data[..n], k);
      assert (before + last)[8 * k..8 * k + 8] == before[8 * k..8 * k + 8];
    } else {
      assert (before + last)[8 * k..8 * k + 8] == last;
    }
  }

  lemma SameByteIffSameBits(p: seq<u8>, q: seq<u8>, k: nat)
    requires |p| == |q| && k < |p|
    ensures p[k] == q[k] <==> Bits(p)[8 * k..8 * k + 8] == Bits(q)[8 * k..8 * k + 8]
  {
    BitsOfByteAt(p, k);
    BitsOfByteAt(q, k);
    if WordBits(p[k], 8) == WordBits(q[k], 8) {
      Widths2();
      WordBitsInjective(p[k], q[k], 8);
    }
  }

  /** Where the bytes agree, so do the bits. */
  lemma SameByteNoFlip(p: seq<u8>, q: seq<u8>, i: nat)
    requires |p| == |q| && i < 8 * |p|
    requires p[i / 8] == q[i / 8]
    ensures Bits(p)[i] == Bits(q)[i]
  {
    var k := i / 8;
    SameByteIffSameBits(p, q, k);
    var a, b := Bits(p)[8 * k..8 * k + 8], Bits(q)[8 * k..8 * k + 8];
    assert Bits(p)[i] == a[i - 8 * k] && Bits(q)[i] == b[i - 8 * k];
  }

  lemma OtherByteFlips(p: seq<u8>, q: seq<u8>, k: nat) returns (i: nat)
    requires |p| == |q| && k < |p|
    requires p[k] != q[k]
    ensures 8 * k <= i < 8 * k + 8 && Bits(p)[i] != Bits(q)[i]
  {
    SameByteIffSameBits(p, q, k);
    var a, b := Bits(p)[8 * k..8 * k + 8], Bits(q)[8 * k..8 * k + 8];
    var j :| 0 <= j < 8 && a[j] != b[j];
    i := 8 * k + j;
  }

  /** In particular no two adjacent header bytes, the checksum included, can be
      replaced without the decoder noticing. */
  lemma TwoBytesRejected(sent: seq<u8>, got: seq<u8>, at: nat)
    requires Decode(sent).Ok? && |got| >= HEADER_LEN && at < HEADER_LEN - 1
    requires forall k :: 0 <= k < HEADER_LEN && k != at && k != at + 1 ==> sent[k] == got[k]
    requires sent[at] != got[at] || sent[at + 1] != got[at + 1]
    ensures Decode(got).Err?
  {
    var e := Corruption(sent, got);
    var p, q := sent[..HEADER_LEN], got[..HEADER_LEN];
    forall i | 0 <= i < |e| && e[i] ensures 8 * at <= i < 8 * at + 16 {
      if p[i / 8] == q[i / 8] {
        SameByteNoFlip(p, q, i);
      }
    }
    var j := OtherByteFlips(p, q, if sent[at] != got[at] then at else at + 1);
    var lo := FirstWrong(e, j);
    assert Burst(e, lo);
    CorruptionRejected(sent, got);
  }

  lemma {:induction false} FirstWrong(e: seq<bool>, j: nat) returns (lo: nat)
    requires j < |e| && e[j]
    ensures lo <= j && e[lo] && forall i :: 0 <= i < lo ==> !e[i]
  {
    if forall i :: 0 <= i < j ==> !e[i] {
      lo := j;
    } else {
      var i :| 0 <= i < j && e[i];
      lo := FirstWrong(e, i);
    }
  }
}
