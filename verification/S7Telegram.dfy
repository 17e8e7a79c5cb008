/**
 The telegrams of crates/plugin-s7/src/s7/client.rs, byte for byte, with the parser of the other side:
 TPKT (RFC 1006), COTP and S7 headers of read and write jobs and of their replies.
 */
module S7Telegram {
  import opened Common

  type u16 = x: int | 0 <= x < 0x1_0000

  const AREA_PE: byte := 0x81
  const AREA_PA: byte := 0x82
  const AREA_MK: byte := 0x83
  const AREA_DB: byte := 0x84
  const WL_BIT: byte := 0x01
  const WL_BYTE: byte := 0x02
  const TS_RES_BIT: byte := 0x03
  const TS_RES_BYTE: byte := 0x04
  const RES_SUCCESS: byte := 0xFF
  const RES_INVALID_ADDRESS: byte := 0x05
  const RES_NOT_FOUND: byte := 0x0A
  const TPKT_ISO_LEN := 7
  const READ_REQ_LEN := 31
  const WRITE_REQ_LEN := 35
  const READ_RES_LEN := 18
  const WRITE_RES_LEN := 15
  const RW_RES_OFFSET := 14
  const RESPONSE_ARRAY_LEN := 480

  datatype S7Error =
    | Io | NotConnected | IsoFragmentedPacket | IsoInvalidHeader | IsoInvalidTelegram
    | PduNegotiationFailed | InvalidFunParameter | S7NotFound | S7InvalidAddress | S7Unspecified

  function Hi(x: nat): byte { (x / 256) % 256 }

  function Lo(x: nat): byte { x % 256 }

  function MakeU16(hi: byte, lo: byte): u16 { hi * 256 + lo }

  /** What one job names: `address` is in bits. */
  datatype Item = Item(wordlen: byte, count: u16, db: u16, area: byte, address: nat)

  datatype Job = Read(item: Item) | Write(item: Item, payload: seq<byte>)

  // ----------------------------------------------------------------- building

  const ISO_HEADER: seq<byte> := [0x02, 0xf0, 0x80]
  const JOB_HEADER: seq<byte> := [0x32, 0x01, 0x00, 0x00, 0x05, 0x00, 0x00, 0x0e]
  const VAR_SPEC: seq<byte> := [0x01, 0x12, 0x0a, 0x10]
  const READ_VAR: byte := 0x04
  const WRITE_VAR: byte := 0x05

  function ParseItem(bs: seq<byte>): Item
    requires |bs| == 9
  {
    Item(bs[0], MakeU16(bs[1], bs[2]), MakeU16(bs[3], bs[4]), bs[5],
         0x1_0000 * (bs[6] as int) + 256 * (bs[7] as int) + bs[8])
  }

  lemma SplitU16(x: u16)
    ensures MakeU16(Hi(x), Lo(x)) == x
  {
  }

  lemma SplitU24(x: nat)
    ensures x < 0x100_0000 ==> 0x1_0000 * ((x / 0x1_0000) % 256) + 256 * Hi(x) + Lo(x) == x
  {
    assert x < 0x100_0000 ==> x / 0x1_0000 < 256;
  }

  /** Word length, count, DB number, area and 24-bit address: bytes 22 to 30 of a job. */
  function ItemBytes(item: Item): (bs: seq<byte>)
    ensures |bs| == 9
    ensures item.address < 0x100_0000 ==> ParseItem(bs) == item
  {
    SplitU16(item.count);
    SplitU16(item.db);
    SplitU24(item.address);
    [ item.wordlen, Hi(item.count), Lo(item.count), Hi(item.db), Lo(item.db), item.area,
      (item.address / 0x1_0000) % 256, Hi(item.address), Lo(item.address) ]
  }

  /** The 31 bytes both kinds of job start with. */
  function JobBytes(total: nat, dataLen: nat, job: byte, item: Item): (t: seq<byte>)
    ensures |t| == 31
    ensures t[0] == 0x03 && t[2] == Hi(total) && t[3] == Lo(total) && t[4..7] == ISO_HEADER && t[7..15] == JOB_HEADER
    ensures t[15] == Hi(dataLen) && t[16] == Lo(dataLen) && t[17] == job && t[18..22] == VAR_SPEC
    ensures t[22..31] == ItemBytes(item)
  {
    [0x03, 0x00, Hi(total), Lo(total)] + ISO_HEADER + JOB_HEADER + [Hi(dataLen), Lo(dataLen)]
    + [job] + VAR_SPEC + ItemBytes(item)
  }

  function ReadRequest(item: Item): (t: seq<byte>)
    ensures |t| == 31
  {
    JobBytes(31, 0, READ_VAR, item)
  }

  function Transport(wordlen: byte): byte { if wordlen == WL_BIT then TS_RES_BIT else TS_RES_BYTE }

  /** The payload length in bits, cut to 16 bits. */
  function BitsPayload(wordlen: byte, n: nat): u16 { if wordlen == WL_BIT then 1 else (n * 8) % 0x1_0000 }

  function WriteRequest(item: Item, payload: seq<byte>): (t: seq<byte>)
    ensures |t| == 35 + |payload|
  {
    var bits := BitsPayload(item.wordlen, |payload|);
    JobBytes(35 + |payload|, |payload| + 4, WRITE_VAR, item)
    + [0x00, Transport(item.wordlen), Hi(bits), Lo(bits)] + payload
  }

  // ------------------------------------------------------------------ parsing

  /** Accepts exactly the well-formed single-item read and write jobs. */
  function Parse(t: seq<byte>): Option<Job> {
    if |t| < 31 || t[0] != 0x03 || MakeU16(t[2], t[3]) != |t| || t[4..7] != ISO_HEADER || t[7..15] != JOB_HEADER
       || t[18..22] != VAR_SPEC then None
    else
      var item := ParseItem(t[22..31]);
      if t[17] == READ_VAR then
        if |t| == 31 && MakeU16(t[15], t[16]) == 0 then Some(Read(item)) else None
      else if t[17] == WRITE_VAR && |t| >= 35 then
        var payload := t[35..];
        if MakeU16(t[15], t[16]) == |payload| + 4
           && t[32] == Transport(item.wordlen)
           && MakeU16(t[33], t[34]) == (if item.wordlen == WL_BIT then 1 else 8 * |payload|)
        then Some(Write(item, payload)) else None
      else None
  }

  /** `t` starts with the 31 bytes of a job. */
  ghost predicate IsJob(t: seq<byte>, total: nat, dataLen: nat, job: byte, item: Item) {
    && |t| >= 31
    && t[0] == 0x03 && t[2] == Hi(total) && t[3] == Lo(total) && t[4..7] == ISO_HEADER && t[7..15] == JOB_HEADER
    && t[15] == Hi(dataLen) && t[16] == Lo(dataLen) && t[17] == job && t[18..22] == VAR_SPEC
    && t[22..31] == ItemBytes(item)
  }

  lemma ReadParses(t: seq<byte>, item: Item)
    requires |t| == 31 && IsJob(t, 31, 0, READ_VAR, item) && ParseItem(ItemBytes(item)) == item
    ensures Parse(t) == Some(Read(item))
  {
  }

  lemma ReadRoundTrip(item: Item)
    requires item.address < 0x100_0000
    ensures Parse(ReadRequest(item)) == Some(Read(item))
  {
    ReadParses(ReadRequest(item), item);
  }

  lemma WriteParses(t: seq<byte>, item: Item, payload: seq<byte>, bits: u16)
    requires |t| == 35 + |payload| < 0x1_0000 && IsJob(t, |t|, |payload| + 4, WRITE_VAR, item)
    requires ParseItem(ItemBytes(item)) == item
    requires t[32] == Transport(item.wordlen) && t[33] == Hi(bits) && t[34] == Lo(bits) && t[35..] == payload
    ensures MakeU16(t[2], t[3]) == |t|
    ensures Parse(t) == Some(Write(item, payload)) <==> bits == if item.wordlen == WL_BIT then 1 else 8 * |payload|
  {
    SplitU16(|t|);
    SplitU16(|payload| + 4);
    SplitU16(bits);
  }

  lemma WriteIsJob(item: Item, payload: seq<byte>)
    ensures IsJob(WriteRequest(item, payload), 35 + |payload|, |payload| + 4, WRITE_VAR, item)
    ensures WriteRequest(item, payload)[35..] == payload
  {
    var t := WriteRequest(item, payload);
    var head := JobBytes(35 + |payload|, |payload| + 4, WRITE_VAR, item);
    assert t[..31] == head;
    assert t[4..7] == head[4..7] && t[7..15] == head[7..15] && t[18..22] == head[18..22] && t[22..31] == head[22..31];
  }

  /**
   A write job parses back to what was asked exactly when its bit count is not cut; the TPKT length
   (section 6 of RFC 1006) is the real length of the telegram.
   */
  lemma WriteRoundTrip(item: Item, payload: seq<byte>)
    requires item.address < 0x100_0000 && |payload| <= 0xFFFF - 35
    ensures var t := WriteRequest(item, payload);
            && MakeU16(t[2], t[3]) == |t|
            && (Parse(t) == Some(Write(item, payload)) <==> item.wordlen == WL_BIT || |payload| < 8192)
  {
    WriteIsJob(item, payload);
    WriteParses(WriteRequest(item, payload), item, payload, BitsPayload(item.wordlen, |payload|));
    BitsNotCut(|payload|);
  }

  /** Nor does it parse to anything else: a write telegram is what was asked, or no job at all. */
  lemma WriteParsesOrNot(item: Item, payload: seq<byte>)
    requires item.address < 0x100_0000 && |payload| <= 0xFFFF
    ensures Parse(WriteRequest(item, payload))
         == if |payload| <= 0xFFFF - WRITE_REQ_LEN && (item.wordlen == WL_BIT || |payload| < 8192)
            then Some(Write(item, payload)) else None
  {
    if |payload| <= 0xFFFF - WRITE_REQ_LEN {
      WriteRoundTrip(item, payload);
      WriteIsJob(item, payload);
      OnlyItself(WriteRequest(item, payload), item, payload);
    } else {
      LengthCut(WriteRequest(item, payload));
    }
  }

  lemma OnlyItself(t: seq<byte>, item: Item, payload: seq<byte>)
    requires |t| >= 35 && IsJob(t, |t|, |payload| + 4, WRITE_VAR, item) && ParseItem(ItemBytes(item)) == item
    requires t[35..] == payload
    ensures Parse(t) == Some(Write(item, payload)) || Parse(t) == None
  {
  }

  /** A telegram of more than 65535 bytes has its length cut. */
  lemma LengthCut(t: seq<byte>)
    requires 0x1_0000 <= |t|
    ensures Parse(t) == None
  {
  }

  lemma BitsNotCut(n: nat)
    requires n < 0x1_0000
    ensures BitsPayload(WL_BYTE, n) == 8 * n <==> n < 8192
  {
  }

  // ------------------------------------------------------------------ replies

  /** TPKT and COTP headers in front of an S7 telegram. */
  function Framed(s7: seq<byte>): (t: seq<byte>)
    ensures |t| == TPKT_ISO_LEN + |s7|
  {
    [0x03, 0x00, Hi(TPKT_ISO_LEN + |s7|), Lo(TPKT_ISO_LEN + |s7|), 0x02, 0xf0, 0x80] + s7
  }

  function ReplyHeader(job: byte, paramLen: nat, dataLen: nat): (h: seq<byte>)
    ensures |h| == 14
  {
    [0x32, 0x03, 0x00, 0x00, 0x05, 0x00, Hi(paramLen), Lo(paramLen), Hi(dataLen), Lo(dataLen), 0x00, 0x00,
     job, 0x01]
  }

  function ReadReply(code: byte, transport: byte, bits: nat, payload: seq<byte>): (s7: seq<byte>)
    ensures |s7| == READ_RES_LEN + |payload| && s7[RW_RES_OFFSET] == code && s7[READ_RES_LEN..] == payload
  {
    ReplyHeader(0x04, 2, 4 + |payload|) + [code, transport, Hi(bits), Lo(bits)] + payload
  }

  function WriteReply(code: byte): (s7: seq<byte>)
    ensures |s7| == WRITE_RES_LEN && s7[RW_RES_OFFSET] == code
  {
    ReplyHeader(0x05, 2, 1) + [code]
  }

  /** `check_iso_packet`: how many bytes of the telegram are still to be read. */
  function CheckIsoPacket(pduLength: u16, iso: seq<byte>): (r: Result<nat, S7Error>)
    requires |iso| == TPKT_ISO_LEN
    ensures r.Success? ==> 0 < r.value <= pduLength && r.value + TPKT_ISO_LEN == MakeU16(iso[2], iso[3])
  {
    if iso[0] != 0x03 || iso[4] != 0x02 || iso[5] != 0xF0 then Failure(IsoInvalidHeader)
    else if iso[6] != 0x80 then Failure(IsoFragmentedPacket)
    else
      var len := MakeU16(iso[2], iso[3]);
      if len < TPKT_ISO_LEN || len - TPKT_ISO_LEN > pduLength || len - TPKT_ISO_LEN == 0
      then Failure(IsoInvalidTelegram)
      else Success(len - TPKT_ISO_LEN)
  }

  /** Which headers are accepted, and with which error the others are refused. */
  lemma HeaderExact(pdu: u16, iso: seq<byte>)
    requires |iso| == 7
    ensures var (r, len) := (CheckIsoPacket(pdu, iso), 256 * (iso[2] as int) + iso[3]);
            && (r == Failure(IsoInvalidHeader) <==> !(iso[0] == 0x03 && iso[4] == 0x02 && iso[5] == 0xF0))
            && (r == Failure(IsoFragmentedPacket) <==>
                  iso[0] == 0x03 && iso[4] == 0x02 && iso[5] == 0xF0 && iso[6] != 0x80)
            && (r.Success? <==>
                  iso[0] == 0x03 && iso[4] == 0x02 && iso[5] == 0xF0 && iso[6] == 0x80 && 7 < len <= pdu + 7)
            && (r.Success? ==> r.value == len - 7)
            && (r.Failure? ==> r.error in {IsoInvalidHeader, IsoFragmentedPacket, IsoInvalidTelegram})
  {
  }

  /** The header of a telegram as the PLC frames it, its length in bytes 2 and 3. */
  lemma FramedHeader(s7: seq<byte>)
    requires |s7| < 0xFFF9
    ensures Framed(s7) == [0x03, 0x00, (|s7| + 7) / 256, (|s7| + 7) % 256, 0x02, 0xf0, 0x80] + s7
  {
  }

  /** The replies to both kinds of job: where the client finds result code and payload. */
  lemma ReplyLayout(code: byte, transport: byte, bits: u16, payload: seq<byte>)
    requires |payload| <= 0xFFFF - 4
    ensures var n := 4 + |payload|;
            ReadReply(code, transport, bits, payload)
            == [ 0x32, 0x03, 0x00, 0x00, 0x05, 0x00, 0x00, 0x02, n / 256, n % 256, 0x00, 0x00, 0x04, 0x01,
                 code, transport, bits / 256, bits % 256 ] + payload
    ensures WriteReply(code)
         == [0x32, 0x03, 0x00, 0x00, 0x05, 0x00, 0x00, 0x02, 0x00, 0x01, 0x00, 0x00, 0x05, 0x01, code]
  {
  }

  /** A framed telegram passes the check exactly when it is not empty and fits the negotiated PDU. */
  lemma FramedPasses(pduLength: u16, s7: seq<byte>)
    requires TPKT_ISO_LEN + |s7| < 0x1_0000
    ensures CheckIsoPacket(pduLength, Framed(s7)[..TPKT_ISO_LEN])
         == if 0 < |s7| <= pduLength then Success(|s7|) else Failure(IsoInvalidTelegram)
  {
    SplitU16(TPKT_ISO_LEN + |s7|);
  }

  // ------------------------------------------------- negotiated chunk lengths

  /** u16 subtraction as compiled for release: it wraps. */
  function WrappingSub(a: u16, b: u16): u16 { if a >= b then a - b else a - b + 0x1_0000 }

  /** A write job of a full chunk never exceeds the PDU plus the 7 bytes of TPKT and COTP. */
  lemma WriteFitsPdu(item: Item, payload: seq<byte>, pdu: u16)
    requires pdu >= 29 && |payload| <= WrappingSub(pdu, 28)
    ensures |WriteRequest(item, payload)| <= pdu + TPKT_ISO_LEN
  {
  }

  /** The 24-bit bit address of any byte reachable from a 16-bit start and length is never cut. */
  lemma AddressFits(start: u16, offset: nat)
    requires offset <= 0xFFFF
    ensures (start + offset) * 8 < 0x100_0000
  {
  }
}
