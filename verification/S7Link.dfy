/**
 The PLC at the other end of crates/plugin-s7/src/s7/client.rs, and the TCP stream between: every job
 that the PLC takes puts a reply on the stream, and every job reads the stream from where the last one
 left it, whether or not its own reply comes next.
 */
module S7Link {
  import opened Common
  import opened S7Telegram

  // ---------------------------------------------------------------------- PLC

  /** A memory area; the DB number only matters for data blocks. */
  datatype Key = Key(area: byte, db: u16)

  type Memory = map<Key, seq<byte>>

  function KeyOf(area: byte, db: u16): Key { Key(area, if area == AREA_DB then db else 0) }

  /** Bit `i` of `b`, counted from the lowest. */
  function BitOf(b: nat, i: nat): (bit: byte)
    ensures bit <= 1
  {
    if i == 0 then b % 2 else BitOf(b / 2, i - 1)
  }

  /** `b` with bit `i` set to `v` and the others kept. */
  function SetBit(b: nat, i: nat, v: bool): nat {
    if i == 0 then 2 * (b / 2) + (if v then 1 else 0) else 2 * SetBit(b / 2, i - 1, v) + b % 2
  }

  lemma {:induction false} SetBitIs(b: nat, i: nat, v: bool, k: nat)
    ensures BitOf(SetBit(b, i, v), k) == if k == i then (if v then 1 else 0) else BitOf(b, k)
  {
    var r := SetBit(b, i, v);
    if i == 0 {
      assert r / 2 == b / 2;
    } else {
      assert r / 2 == SetBit(b / 2, i - 1, v) && r % 2 == b % 2;
      if k > 0 {
        SetBitIs(b / 2, i - 1, v, k - 1);
      }
    }
  }

  function Pow2(n: nat): nat { if n == 0 then 1 else 2 * Pow2(n - 1) }

  lemma {:induction false} SetBitFits(b: nat, i: nat, v: bool, n: nat)
    requires i < n && b < Pow2(n)
    ensures SetBit(b, i, v) < Pow2(n)
  {
    var half, unit := b / 2, b % 2;
    assert b == 2 * half + unit && unit < 2;
    assert half < Pow2(n - 1);
    if i > 0 {
      SetBitFits(half, i - 1, v, n - 1);
      assert SetBit(b, i, v) == 2 * SetBit(half, i - 1, v) + unit;
    }
  }

  function WithBit(b: byte, i: nat, v: bool): byte
    requires i < 8
  {
    assert Pow2(8) == 2 * Pow2(7) == 4 * Pow2(6) == 8 * Pow2(5) == 16 * Pow2(4) == 256;
    SetBitFits(b, i, v, 8);
    SetBit(b, i, v)
  }

  /** `m` with the bytes from `start` on replaced by `data`. */
  function Splice(m: seq<byte>, start: nat, data: seq<byte>): (r: seq<byte>)
    requires start + |data| <= |m|
    ensures |r| == |m|
    ensures forall i :: 0 <= i < |m| ==>
                          r[i] == if start <= i < start + |data| then data[i - start] else m[i]
  {
    m[..start] + data + m[start + |data|..]
  }

  /** The result code for touching `count` bytes at `start` of area `key`. */
  function AccessCode(mem: Memory, key: Key, start: nat, count: nat): byte {
    if key !in mem then RES_NOT_FOUND
    else if start + count > |mem[key]| then RES_INVALID_ADDRESS
    else RES_SUCCESS
  }

  datatype Outcome = Outcome(mem: Memory, code: byte, payload: seq<byte>)

  /** What the PLC does with a job: its memory afterwards, the result code and the payload of the reply. */
  function Execute(mem: Memory, job: Job): (out: Outcome)
    ensures |out.payload| <= 0xFFFF && (job.Write? ==> out.payload == [])
    ensures job.Read? ==> out.mem == mem
  {
    var item := job.item;
    var key := KeyOf(item.area, item.db);
    var at := item.address / 8;
    var count := if item.wordlen == WL_BIT then 1 else item.count;
    var code := AccessCode(mem, key, at, count);
    if code != RES_SUCCESS then Outcome(mem, code, [])
    else
      match job
      case Read(_) =>
        Outcome(mem, code,
                if item.wordlen == WL_BIT then [BitOf(mem[key][at], item.address % 8)] else mem[key][at..at + count])
      case Write(_, payload) =>
        if |payload| != count then Outcome(mem, RES_INVALID_ADDRESS, [])
        else if item.wordlen == WL_BIT then
          var after := WithBit(mem[key][at], item.address % 8, payload[0] != 0);
          Outcome(mem[key := Splice(mem[key], at, [after])], code, [])
        else Outcome(mem[key := Splice(mem[key], at, payload)], code, [])
  }

  /** The S7 telegram of the reply. */
  function ReplyBytes(job: Job, code: byte, payload: seq<byte>): (s7: seq<byte>)
    ensures |s7| > RW_RES_OFFSET && s7[RW_RES_OFFSET] == code
    ensures job.Read? ==> |s7| == READ_RES_LEN + |payload| && s7[READ_RES_LEN..] == payload
    ensures job.Write? ==> |s7| == WRITE_RES_LEN
  {
    match job
    case Read(item) =>
      if item.wordlen == WL_BIT then ReadReply(code, TS_RES_BIT, 1, payload)
      else ReadReply(code, TS_RES_BYTE, 8 * |payload|, payload)
    case Write(_, _) => WriteReply(code)
  }

  // -------------------------------------------------------------------- stream

  /**
   How one exchange goes. Without a reply in time the client gives up, and the reply may still come;
   on a link that is cut what has not arrived never does.
   */
  datatype Fault =
    | Prompt                        // everything sent arrives in time
    | SendFails                     // the request is not sent
    | Lost                          // the request does not reach the PLC
    | Late(arrived: nat)            // of the stream, only so many bytes arrive in time, the others later
    | Cut(arrived: nat)             // of the stream, only so many bytes arrive at all
    | Garbled(telegram: seq<byte>)  // the PLC sends this, and no reply

  /** The connection: PLC memory, bytes sent by the PLC but not read by the client, and what is to go wrong. */
  datatype Link = Link(mem: Memory, unread: seq<byte>, faults: seq<Fault>)

  /** The negotiated PDU length, and the longest telegram the PLC takes. */
  datatype Terms = Terms(pdu: u16, longest: nat)

  /** A telegram the PLC takes: not too long for it, and a job. */
  predicate Takes(longest: nat, request: seq<byte>) { |request| <= longest && Parse(request).Some? }

  /** Memory after a request, and the bytes the PLC sends. */
  function Answer(mem: Memory, longest: nat, request: seq<byte>, fault: Fault): (Memory, seq<byte>) {
    match fault
    case SendFails | Lost => (mem, [])
    case Garbled(telegram) => (mem, telegram)
    case Prompt | Late(_) | Cut(_) =>
      if Takes(longest, request) then
        var job := Parse(request).value;
        var out := Execute(mem, job);
        (out.mem, Framed(ReplyBytes(job, out.code, out.payload)))
      else (mem, [])
  }

  /** What will ever arrive of a stream, and how much of that in time. */
  function Arriving(stream: seq<byte>, fault: Fault): (s: seq<byte>)
    ensures s <= stream
  {
    if fault.Cut? then stream[..Min(fault.arrived, |stream|)] else stream
  }

  function InTime(stream: seq<byte>, fault: Fault): (n: nat)
    ensures n <= |stream|
  {
    if fault.Late? then Min(fault.arrived, |stream|) else |stream|
  }

  function NextFault(faults: seq<Fault>): Fault { if faults == [] then Prompt else faults[0] }

  function LaterFaults(faults: seq<Fault>): seq<Fault> { if faults == [] then [] else faults[1..] }

  /** A result code as the client reports it. */
  function CodeError(code: byte): S7Error {
    if code == RES_NOT_FOUND then S7NotFound
    else if code == RES_INVALID_ADDRESS then S7InvalidAddress
    else S7Unspecified
  }

  /** An accepted reply in full: its result code decides. */
  function Judged(s7: seq<byte>): Result<seq<byte>, S7Error>
    requires |s7| > RW_RES_OFFSET
  {
    if s7[RW_RES_OFFSET] != RES_SUCCESS then Failure(CodeError(s7[RW_RES_OFFSET])) else Success(s7)
  }

  datatype Received = Received(r: Result<seq<byte>, S7Error>, unread: seq<byte>)

  /**
   Receiving a reply from a stream of which the first `inTime` bytes are there in time: 7 bytes of header,
   then as many as the header says. A refused header or size leaves the rest of the telegram on the stream.
   */
  function Receive(pdu: u16, minSize: nat, stream: seq<byte>, inTime: nat): (got: Received)
    requires minSize > RW_RES_OFFSET && inTime <= |stream|
    ensures |got.unread| <= |stream| && got.unread == stream[|stream| - |got.unread|..]
    ensures got.r.Success? ==> minSize <= |got.r.value| <= RESPONSE_ARRAY_LEN && |got.r.value| <= pdu
    ensures inTime > 0 ==> |got.unread| < |stream|
  {
    if inTime < TPKT_ISO_LEN then Received(Failure(Io), stream[inTime..])
    else
      var size := CheckIsoPacket(pdu, stream[..TPKT_ISO_LEN]);
      if size.Failure? then Received(Failure(size.error), stream[TPKT_ISO_LEN..])
      else if size.value < minSize || size.value > RESPONSE_ARRAY_LEN then
        Received(Failure(IsoInvalidTelegram), stream[TPKT_ISO_LEN..])
      else if inTime < TPKT_ISO_LEN + size.value then Received(Failure(Io), stream[inTime..])
      else
        var s7 := stream[TPKT_ISO_LEN..TPKT_ISO_LEN + size.value];
        Received(Judged(s7), stream[TPKT_ISO_LEN + size.value..])
  }

  /** How one exchange ends. */
  type JobEnd = (Link, Result<seq<byte>, S7Error>)

  /** One exchange: a request is sent, a reply is read from wherever the stream stands. */
  function Transacted(l: Link, t: Terms, request: seq<byte>, minSize: nat): JobEnd
    requires minSize > RW_RES_OFFSET
  {
    var fault, faults := NextFault(l.faults), LaterFaults(l.faults);
    if fault == SendFails then (l.(faults := faults), Failure(Io))
    else
      var (mem, sent) := Answer(l.mem, t.longest, request, fault);
      var got := Delivered(l.unread, sent, t.pdu, minSize, fault);
      (Link(mem, got.unread, faults), got.r)
  }

  /** What the client receives once the PLC has put `sent` behind the unread bytes. */
  function Delivered(unread: seq<byte>, sent: seq<byte>, pdu: u16, minSize: nat, fault: Fault): Received
    requires minSize > RW_RES_OFFSET
  {
    var stream := Arriving(unread + sent, fault);
    Receive(pdu, minSize, stream, InTime(stream, fault))
  }

  class Plc {
    var mem: Memory
    var faults: seq<Fault>
    var unread: seq<byte>
    /** How many unread bytes arrive before the client gives up on the current exchange. */
    var inTime: nat
    /** The longest telegram it takes: the negotiated PDU length plus 7 if it is strict about it. */
    const longest: nat

    constructor (mem: Memory, faults: seq<Fault>, longest: nat)
      ensures State() == Link(mem, [], faults) && this.longest == longest
    {
      this.mem, this.faults, this.longest := mem, faults, longest;
      unread, inTime := [], 0;
    }

    ghost function State(): Link
      reads this
    {
      Link(mem, unread, faults)
    }

    /** A new TCP connection: what was on the old stream is gone. */
    method Connect()
      modifies this`unread, this`inTime
      ensures State() == old(State()).(unread := [])
    {
      unread, inTime := [], 0;
    }

    /** `write_all` of a request, and what the PLC makes of it. */
    method Send(request: seq<byte>) returns (ok: bool)
      modifies this
      ensures var fault := NextFault(old(faults));
              var (after, sent) := Answer(old(mem), longest, request, fault);
              && faults == LaterFaults(old(faults))
              && ok == (fault != SendFails)
              && (!ok ==> mem == old(mem) && unread == old(unread))
              && (ok ==> && mem == after && unread == Arriving(old(unread) + sent, fault)
                         && inTime == InTime(unread, fault))
    {
      var fault := NextFault(faults);
      faults := LaterFaults(faults);
      if fault == SendFails {
        return false;
      }
      var (after, sent) := Answer(mem, longest, request, fault);
      mem := after;
      unread := Arriving(unread + sent, fault);
      inTime := InTime(unread, fault);
      return true;
    }

    /** `read_exact`: on a timeout the bytes that came are consumed all the same. */
    method ReadExact(n: nat) returns (r: Result<seq<byte>, S7Error>)
      requires inTime <= |unread|
      modifies this`unread, this`inTime
      ensures inTime <= |unread|
      ensures if old(inTime) >= n
              then r == Success(old(unread)[..n]) && unread == old(unread)[n..] && inTime == old(inTime) - n
              else r == Failure(Io) && unread == old(unread)[old(inTime)..] && inTime == 0
    {
      if inTime >= n {
        r := Success(unread[..n]);
        unread, inTime := unread[n..], inTime - n;
      } else {
        r := Failure(Io);
        unread, inTime := unread[inTime..], 0;
      }
    }
  }

  // ------------------------------------------------------------------- replies

  /** The client's verdict on a reply of `size` bytes with result code `code`. */
  function ReplyVerdict(pdu: u16, size: nat, code: byte): Result<(), S7Error> {
    if size > Min(pdu, RESPONSE_ARRAY_LEN) then Failure(IsoInvalidTelegram)
    else if code != RES_SUCCESS then Failure(CodeError(code))
    else Success(())
  }

  /** A length of 17 bits loses the highest. */
  lemma LengthLosesBit(x: nat)
    requires 0x1_0000 <= x < 0x2_0000
    ensures Hi(x) == Hi(x - 0x1_0000) && Lo(x) == Lo(x - 0x1_0000)
    ensures MakeU16(Hi(x), Lo(x)) == x - 0x1_0000
  {
    var rest: u16 := x - 0x1_0000;
    var high, low := rest / 256, rest % 256;
    assert rest == 256 * high + low && high < 256;
    assert x == 256 * (256 + high) + low;
    assert x / 256 == 256 + high && x % 256 == low;
  }

  /** The length field of an over-long reply is cut to less than any job's reply. */
  lemma LongReply(pduLength: u16, s7: seq<byte>)
    requires 0x1_0000 <= TPKT_ISO_LEN + |s7| < 0x2_0000
    ensures var size := CheckIsoPacket(pduLength, Framed(s7)[..TPKT_ISO_LEN]);
            size == Failure(IsoInvalidTelegram) || size == Success(|s7| - 0x1_0000)
  {
    LengthLosesBit(TPKT_ISO_LEN + |s7|);
  }

  function MinReply(job: Job): nat { if job.Read? then READ_RES_LEN else WRITE_RES_LEN }

  /** The client's answer to a job whose reply carries `payload`, given the verdict on the reply. */
  ghost predicate Reported(r: Result<seq<byte>, S7Error>, verdict: Result<(), S7Error>, payload: seq<byte>,
                           minSize: nat)
  {
    match verdict
    case Success(_) => r.Success? && |r.value| == minSize + |payload| && r.value[minSize..] == payload
    case Failure(error) => r == Failure(error)
  }

  /** A reply of `size` bytes is refused unread. */
  predicate Refused(pdu: u16, size: nat) { size > Min(pdu, RESPONSE_ARRAY_LEN) }

  /**
   The client reads a stream that starts with a framed reply, as far as it is there in time: what it makes of
   it, and what stays. Of a refused reply only the header is read, one too long for the 16-bit length field
   included; of one that is late, what came in time.
   */
  lemma ReceiveReply(pdu: u16, s7: seq<byte>, minSize: nat, stream: seq<byte>, inTime: nat)
    requires RW_RES_OFFSET < minSize <= |s7| < minSize + 0x1_0000 && minSize <= READ_RES_LEN
    requires inTime <= |stream|
    requires stream[..Min(inTime, |Framed(s7)|)] == Framed(s7)[..Min(inTime, |Framed(s7)|)]
    ensures Receive(pdu, minSize, stream, inTime)
         == if inTime < TPKT_ISO_LEN then Received(Failure(Io), stream[inTime..])
            else if |s7| > pdu || |s7| > 480 then Received(Failure(IsoInvalidTelegram), stream[TPKT_ISO_LEN..])
            else if inTime < TPKT_ISO_LEN + |s7| then Received(Failure(Io), stream[inTime..])
            else Received(Judged(s7), stream[TPKT_ISO_LEN + |s7|..])
  {
    if inTime >= TPKT_ISO_LEN {
      var n := Min(inTime, |Framed(s7)|);
      assert stream[..TPKT_ISO_LEN] == stream[..n][..TPKT_ISO_LEN] == Framed(s7)[..TPKT_ISO_LEN];
      if TPKT_ISO_LEN + |s7| < 0x1_0000 {
        FramedPasses(pdu, s7);
        if n == |Framed(s7)| {
          assert stream[TPKT_ISO_LEN..TPKT_ISO_LEN + |s7|] == stream[..n][TPKT_ISO_LEN..] == s7;
        }
      } else {
        LongReply(pdu, s7);
      }
    }
  }

  /** A header that is refused, or announces less than the job's reply or more than 480 bytes, is all that is read. */
  lemma ReceiveRefused(pdu: u16, minSize: nat, stream: seq<byte>, inTime: nat)
    requires minSize > 14 && 7 <= inTime <= |stream|
    ensures var (size, got) := (CheckIsoPacket(pdu, stream[..7]), Receive(pdu, minSize, stream, inTime));
            && (size.Failure? ==> got == Received(Failure(size.error), stream[7..]))
            && (size.Success? && !(minSize <= size.value <= 480) ==>
                  got == Received(Failure(IsoInvalidTelegram), stream[7..]))
  {
  }

  /** An accepted reply by its result code, the byte at 14: 0xFF, 0x0A, 0x05 and all others. */
  lemma JudgedBy(s7: seq<byte>)
    requires |s7| > 14
    ensures s7[14] == 0xFF <==> Judged(s7) == Success(s7)
    ensures s7[14] == 0x0A <==> Judged(s7) == Failure(S7NotFound)
    ensures s7[14] == 0x05 <==> Judged(s7) == Failure(S7InvalidAddress)
    ensures s7[14] !in {0xFF, 0x0A, 0x05} <==> Judged(s7) == Failure(S7Unspecified)
  {
  }

  /** Bit `i` of a byte, as a quotient and remainder. */
  lemma BitOfByte(b: byte, i: nat)
    requires i < 8
    ensures BitOf(b, i) == [b, b / 2, b / 4, b / 8, b / 16, b / 32, b / 64, b / 128][i] % 2
  {
    var halves := [b, b / 2, b / 4, b / 8, b / 16, b / 32, b / 64, b / 128];
    HalvesDown(halves, i, i);
  }

  lemma {:induction false} HalvesDown(halves: seq<nat>, i: nat, k: nat)
    requires k <= i < |halves| && forall j :: 0 <= j < |halves| - 1 ==> halves[j + 1] == halves[j] / 2
    ensures BitOf(halves[i - k], k) == halves[i] % 2
  {
    if k > 0 {
      assert halves[i - k + 1] == halves[i - k] / 2;
      HalvesDown(halves, i, k - 1);
    }
  }

  /** Setting a bit of a byte sets it and keeps the other seven. */
  lemma WithBitIs(b: byte, i: nat, v: bool, k: nat)
    requires i < 8
    ensures BitOf(WithBit(b, i, v), k) == if k == i then (if v then 1 else 0) else BitOf(b, k)
  {
    SetBitIs(b, i, v, k);
  }

  // -------------------------------------------------- one exchange, any fault

  /** What the PLC sends for a request that reaches it: one framed reply, or nothing. */
  function ReplyTo(mem: Memory, longest: nat, request: seq<byte>): (s7: Option<seq<byte>>)
    ensures s7.Some? ==> |s7.value| > RW_RES_OFFSET
  {
    if Takes(longest, request) then
      var job := Parse(request).value;
      var out := Execute(mem, job);
      Some(ReplyBytes(job, out.code, out.payload))
    else None
  }

  /** A request and what the client expects of its reply. */
  predicate Expects(t: Terms, request: seq<byte>, minSize: nat) {
    && RW_RES_OFFSET < minSize <= READ_RES_LEN
    && (Takes(t.longest, request) ==> minSize == MinReply(Parse(request).value))
  }

  /** What an exchange leaves of its own reply: what is late, and all but the header of a refused one. */
  function LeftOf(pdu: u16, reply: Option<seq<byte>>, fault: Fault): seq<byte>
    requires !fault.Garbled?
  {
    if reply == None || fault.SendFails? || fault.Lost? then []
    else
      var stream := Arriving(Framed(reply.value), fault);
      var n := InTime(stream, fault);
      if n < TPKT_ISO_LEN then stream[n..]
      else if Refused(pdu, |reply.value|) then stream[TPKT_ISO_LEN..]
      else if n < TPKT_ISO_LEN + |reply.value| then stream[n..]
      else []
  }

  /** An exchange with its reply that leaves nothing: no reply, or one accepted for its size and not late. */
  predicate Settles(pdu: u16, reply: Option<seq<byte>>, fault: Fault) {
    || reply == None || fault.SendFails? || fault.Lost?
    || (fault.Cut? && fault.arrived <= TPKT_ISO_LEN)
    || (!Refused(pdu, |reply.value|) && (fault.Late? ==> fault.arrived >= TPKT_ISO_LEN + |reply.value|))
  }

  lemma SettlesExact(pdu: u16, reply: Option<seq<byte>>, fault: Fault)
    requires !fault.Garbled? && (reply.Some? ==> reply.value != [])
    ensures LeftOf(pdu, reply, fault) == [] <==> Settles(pdu, reply, fault)
  {
  }

  /** The verdict on the exchange's own reply. */
  function Verdict(pdu: u16, s7: seq<byte>, fault: Fault): Result<seq<byte>, S7Error>
    requires |s7| > RW_RES_OFFSET
  {
    var stream := Arriving(Framed(s7), fault);
    var n := InTime(stream, fault);
    if fault.SendFails? || fault.Lost? || n < TPKT_ISO_LEN then Failure(Io)
    else if Refused(pdu, |s7|) then Failure(IsoInvalidTelegram)
    else if n < TPKT_ISO_LEN + |s7| then Failure(Io)
    else Judged(s7)
  }

  lemma OwnReplyOverFault(pdu: u16, s7: seq<byte>, minSize: nat, fault: Fault, stream: seq<byte>)
    requires RW_RES_OFFSET < minSize <= |s7| < minSize + 0x1_0000 && minSize <= READ_RES_LEN
    requires !fault.Garbled? && !fault.SendFails? && !fault.Lost? && stream == Arriving(Framed(s7), fault)
    ensures Delivered([], Framed(s7), pdu, minSize, fault)
         == Received(Verdict(pdu, s7, fault), LeftOf(pdu, Some(s7), fault))
  {
    assert [] + Framed(s7) == Framed(s7);
    ReceiveReply(pdu, s7, minSize, stream, InTime(stream, fault));
  }

  lemma AnswerOverFault(mem: Memory, longest: nat, request: seq<byte>, fault: Fault)
    requires !fault.Garbled?
    ensures var (reply, gone) := (ReplyTo(mem, longest, request), fault.SendFails? || fault.Lost?);
            var (after, sent) := Answer(mem, longest, request, fault);
            && after == (if gone then mem else Answer(mem, longest, request, Prompt).0)
            && sent == if gone || reply == None then [] else Framed(reply.value)
  {
  }

  lemma NothingDelivered(pdu: u16, minSize: nat, fault: Fault)
    requires RW_RES_OFFSET < minSize
    ensures Delivered([], [], pdu, minSize, fault) == Received(Failure(Io), [])
  {
  }

  /** One exchange from nothing unread, over any fault but a reply that is not the PLC's. */
  lemma ExchangeOverFault(mem: Memory, t: Terms, request: seq<byte>, minSize: nat, faults: seq<Fault>)
    requires !NextFault(faults).Garbled? && Expects(t, request, minSize)
    ensures var (fault, reply) := (NextFault(faults), ReplyTo(mem, t.longest, request));
            var (end, r) := Transacted(Link(mem, [], faults), t, request, minSize);
            && end.faults == LaterFaults(faults) && end.unread == LeftOf(t.pdu, reply, fault)
            && end.mem == (if fault.SendFails? || fault.Lost? then mem else Answer(mem, t.longest, request, Prompt).0)
            && r == if reply == None then Failure(Io) else Verdict(t.pdu, reply.value, fault)
  {
    var fault := NextFault(faults);
    var reply := ReplyTo(mem, t.longest, request);
    AnswerOverFault(mem, t.longest, request, fault);
    NothingDelivered(t.pdu, minSize, fault);
    if reply.Some? && !fault.SendFails? && !fault.Lost? {
      ReplySize(mem, t, request, minSize);
      OwnReplyOverFault(t.pdu, reply.value, minSize, fault, Arriving(Framed(reply.value), fault));
    }
  }

  lemma ReplySize(mem: Memory, t: Terms, request: seq<byte>, minSize: nat)
    requires Expects(t, request, minSize) && ReplyTo(mem, t.longest, request).Some?
    ensures minSize <= |ReplyTo(mem, t.longest, request).value| < minSize + 0x1_0000
  {
  }

  // ------------------------------------------------------------------ in step

  /**
   An exchange in step: a dropped request times out; any other gets the verdict on its own reply, and
   leaves nothing unread unless that is refused for its size.
   */
  ghost predicate InStep(got: JobEnd, mem: Memory, t: Terms, request: seq<byte>,
                         minSize: nat)
  {
    if !Takes(t.longest, request) then got == (Link(mem, [], []), Failure(Io))
    else
      var job := Parse(request).value;
      var out := Execute(mem, job);
      var size := minSize + |out.payload|;
      && got.0 == Link(out.mem, if Refused(t.pdu, size) then ReplyBytes(job, out.code, out.payload) else [], [])
      && Reported(got.1, ReplyVerdict(t.pdu, size, out.code), out.payload, minSize)
  }

  /** On a prompt link with nothing unread every exchange is in step. */
  lemma PromptInStep(mem: Memory, t: Terms, request: seq<byte>, minSize: nat)
    requires Expects(t, request, minSize)
    ensures InStep(Transacted(Link(mem, [], []), t, request, minSize), mem, t, request, minSize)
  {
    ExchangeOverFault(mem, t, request, minSize, []);
    if Takes(t.longest, request) {
      var job := Parse(request).value;
      var out := Execute(mem, job);
      TakenInStep(Transacted(Link(mem, [], []), t, request, minSize), mem, t, request, job, out,
                  ReplyBytes(job, out.code, out.payload), minSize);
    }
  }

  lemma TakenInStep(got: JobEnd, mem: Memory, t: Terms, request: seq<byte>, job: Job,
                    out: Outcome, s7: seq<byte>, minSize: nat)
    requires Takes(t.longest, request) && job == Parse(request).value && minSize == MinReply(job)
    requires out == Execute(mem, job) && s7 == ReplyBytes(job, out.code, out.payload)
    requires got == (Link(out.mem, LeftOf(t.pdu, Some(s7), Prompt), []), Verdict(t.pdu, s7, Prompt))
    ensures InStep(got, mem, t, request, minSize)
  {
    assert |s7| == minSize + |out.payload|;
    assert Framed(s7)[TPKT_ISO_LEN..] == s7;
  }
}
