/**
 Sequences of calls on one connection of crates/plugin-s7/src/s7/client.rs, which the plugin keeps using
 after a failed call: when a call starts with nothing unread, so that the reply it reads is its own, and
 which reply it reads otherwise.
 */
module S7Calls {
  import opened Common
  import opened S7Telegram
  import opened S7Link
  import opened S7Transfer

  predicate ValidArea(area: byte) { area in {AREA_PE, AREA_PA, AREA_MK, AREA_DB} }

  /** The calls of the client's interface that move data. */
  datatype Call =
    | ReadBytes(area: byte, db: u16, start: u16, n: u16)
    | WriteBytes(area: byte, db: u16, start: u16, data: seq<byte>)
    | ReadBit(area: byte, db: u16, byteNum: u16, bitIdx: byte)
    | WriteBit(area: byte, db: u16, byteNum: u16, bitIdx: byte, value: bool)

  predicate Valid(c: Call) { ValidArea(c.area) && (c.ReadBit? || c.WriteBit? ==> c.bitIdx <= 7) }

  /** Terms with positive chunk lengths, with which every call ends. */
  type Advancing = t: Terms | t.pdu != 18 && t.pdu != 28 witness Terms(240, 247)

  function RdChunk(t: Advancing): (chunk: nat)
    ensures chunk > 0
  {
    WrappingSub(t.pdu, 18)
  }

  function WrChunk(t: Advancing): (chunk: nat)
    ensures chunk > 0
  {
    WrappingSub(t.pdu, 28)
  }

  function Returned(r: Result<(), S7Error>, data: seq<byte>): Result<seq<byte>, S7Error> {
    if r.Success? then Success(data) else Failure(r.error)
  }

  /** The byte a bit read brings, as a bool: 0 if the reply is short. */
  function BitReturned(reply: Result<seq<byte>, S7Error>): Result<seq<byte>, S7Error> {
    Returned(Plain(reply), [if Filled(reply, 1, [0], 0)[0] != 0 then 1 else 0])
  }

  function Clipped(data: seq<byte>): seq<byte> { data[..Min(|data|, 0xFFFF)] }

  /** One call, on any link and with any bytes unread; reads go into a buffer of zeros. */
  function Made(l: Link, t: Advancing, c: Call): JobEnd {
    MadeBy(Reader(t), Writer(t), l, t, c)
  }

  function MadeBy(reader: ReadJob, writer: WriteJob, l: Link, t: Advancing, c: Call): JobEnd {
    if !Valid(c) then (l, Failure(InvalidFunParameter))
    else
      match c
      case ReadBytes(area, db, start, n) =>
        var end := ReadLoop(reader, l, RdChunk(t), area, db, start, n, Zeros(n), 0, 0);
        (end.link, Returned(end.r, end.buffer))
      case WriteBytes(area, db, start, data) =>
        var end := WriteLoop(writer, l, WrChunk(t), area, db, start, Clipped(data), 0, 0);
        (end.link, Returned(end.r, []))
      case ReadBit(area, db, byteNum, bitIdx) =>
        var (end, reply) := reader(l, BitItem(area, db, BitAddress(byteNum, bitIdx)));
        (end, BitReturned(reply))
      case WriteBit(area, db, byteNum, bitIdx, value) =>
        var (end, reply) := writer(l, BitItem(area, db, BitAddress(byteNum, bitIdx)), [if value then 1 else 0]);
        (end, Returned(Plain(reply), []))
  }

  lemma {:induction false} SameReads(a: ReadJob, b: ReadJob, l: Link, chunk: nat, area: byte, db: u16, start: u16,
                                     n: u16, buffer: seq<byte>, offset: nat, chunks: nat)
    requires chunk > 0 && offset <= n <= |buffer| && forall l: Link, item: Item :: a(l, item) == b(l, item)
    ensures ReadLoop(a, l, chunk, area, db, start, n, buffer, offset, chunks)
         == ReadLoop(b, l, chunk, area, db, start, n, buffer, offset, chunks)
    decreases n - offset
  {
    if offset < n {
      var size := Min(n - offset, chunk);
      var (after, r) := a(l, ByteItem(area, db, start + offset, size));
      var next := Filled(r, size, buffer, offset);
      ReadLoopTurn(a, l, chunk, area, db, start, n, buffer, offset, chunks, after, Plain(r), next);
      ReadLoopTurn(b, l, chunk, area, db, start, n, buffer, offset, chunks, after, Plain(r), next);
      if r.Success? {
        SameReads(a, b, after, chunk, area, db, start, n, next, offset + size, chunks + 1);
      }
    }
  }

  lemma {:induction false} SameWrites(a: WriteJob, b: WriteJob, l: Link, chunk: nat, area: byte, db: u16, start: u16,
                                      data: seq<byte>, offset: nat, chunks: nat)
    requires chunk > 0 && offset <= |data| <= 0xFFFF
    requires forall l: Link, item: Item, payload: seq<byte> :: a(l, item, payload) == b(l, item, payload)
    ensures WriteLoop(a, l, chunk, area, db, start, data, offset, chunks)
         == WriteLoop(b, l, chunk, area, db, start, data, offset, chunks)
    decreases |data| - offset
  {
    if offset < |data| {
      var size := Min(|data| - offset, chunk);
      var (after, r) := a(l, ByteItem(area, db, start + offset, size), data[offset..offset + size]);
      WriteLoopTurn(a, l, chunk, area, db, start, data, offset, chunks, after, Plain(r));
      WriteLoopTurn(b, l, chunk, area, db, start, data, offset, chunks, after, Plain(r));
      if r.Success? {
        SameWrites(a, b, after, chunk, area, db, start, data, offset + size, chunks + 1);
      }
    }
  }

  /** The call depends on what the jobs do only. */
  lemma SameCalls(a: ReadJob, b: WriteJob, c: ReadJob, d: WriteJob, l: Link, t: Advancing, call: Call)
    requires forall l: Link, item: Item :: a(l, item) == c(l, item)
    requires forall l: Link, item: Item, payload: seq<byte> :: b(l, item, payload) == d(l, item, payload)
    ensures MadeBy(a, b, l, t, call) == MadeBy(c, d, l, t, call)
  {
    match call
    case ReadBytes(area, db, start, n) =>
      SameReads(a, c, l, RdChunk(t), area, db, start, n, Zeros(n), 0, 0);
    case WriteBytes(area, db, start, data) =>
      SameWrites(b, d, l, WrChunk(t), area, db, start, Clipped(data), 0, 0);
    case _ =>
  }

  lemma MadeByClient(reader: ReadJob, writer: WriteJob, l: Link, t: Advancing, c: Call)
    requires Reads(reader, t) && Writes(writer, t)
    ensures MadeBy(reader, writer, l, t, c) == Made(l, t, c)
  {
    forall l: Link, item: Item
      ensures reader(l, item) == Reader(t)(l, item)
    {
      assert reader(l, item) == Transacted(l, t, ReadRequest(item), READ_RES_LEN);
    }
    forall l: Link, item: Item, payload: seq<byte>
      ensures writer(l, item, payload) == Writer(t)(l, item, payload)
    {
      assert writer(l, item, payload) == Transacted(l, t, WriteRequest(item, payload), WRITE_RES_LEN);
    }
    SameCalls(reader, writer, Reader(t), Writer(t), l, t, c);
  }

  function Zeros(n: nat): (s: seq<byte>)
    ensures |s| == n
  {
    seq(n, _ => 0)
  }

  // ------------------------------------------------------------ calls in step

  /** What is left of a refused reply: a whole S7 telegram without its header. */
  predicate Headless(unread: seq<byte>) { |unread| >= WRITE_RES_LEN && unread[0] == 0x32 }

  lemma RepliesStart(mem: Memory, item: Item, code: byte)
    ensures Headless(ReplyToRead(mem, item)) && Headless(WriteReply(code))
  {
  }

  /** What a call does on a prompt link with nothing unread. */
  ghost predicate Means(c: Call, mem: Memory, t: Advancing, end: Link, r: Result<seq<byte>, S7Error>)
  {
    && end.faults == []
    && (if r == Failure(IsoInvalidTelegram) then Headless(end.unread) else end.unread == [])
    && if !Valid(c) then end.mem == mem && r == Failure(InvalidFunParameter)
       else
         match c
         case ReadBytes(area, db, start, n) =>
           end.mem == mem && r == ReadVerdict(t.pdu, t.longest, RdChunk(t), mem, KeyOf(area, db), start, n)
         case WriteBytes(area, db, start, data) =>
           && (r.Success? ==> r.value == [])
           && exists chunks: nat ::
             WriteVerdict(Plain(r), mem, end.mem, KeyOf(area, db), start, Clipped(data), t.pdu, t.longest, WrChunk(t),
                          chunks)
         case ReadBit(area, db, byteNum, bitIdx) =>
           && end.mem == mem
           && (match ReadVerdict(t.pdu, t.longest, 1, mem, KeyOf(area, db), byteNum % 8192, 1)
               case Success(value) => r == Success([BitOf(value[0], bitIdx)])
               case Failure(error) => r == Failure(error))
         case WriteBit(area, db, byteNum, bitIdx, value) =>
           && (r.Success? ==> r.value == [])
           && WritesBit(Plain(r), mem, end, t, KeyOf(area, db), 8 * (byteNum % 8192) + bitIdx, value)
  }

  /** With nothing unread on a prompt link every call means what it says. */
  lemma CallInStep(c: Call, mem: Memory, t: Advancing)
    ensures var (end, r) := Made(Link(mem, [], []), t, c);
            Means(c, mem, t, end, r)
  {
    JobsInStep(Reader(t), Writer(t), c, mem, t);
  }

  lemma JobsInStep(reader: ReadJob, writer: WriteJob, c: Call, mem: Memory, t: Advancing)
    requires Reads(reader, t) && Writes(writer, t)
    ensures var (end, r) := MadeBy(reader, writer, Link(mem, [], []), t, c);
            Means(c, mem, t, end, r)
  {
    if Valid(c) {
      match c
      case ReadBytes(area, db, start, n) =>
        ReadInStep(reader, mem, t, RdChunk(t), area, db, start, n, Zeros(n));
        var end := ReadLoop(reader, Link(mem, [], []), RdChunk(t), area, db, start, n, Zeros(n), 0, 0);
        ReadBytesMeans(c, mem, t, end);
      case WriteBytes(area, db, start, data) =>
        WriteInStep(writer, mem, t, WrChunk(t), area, db, start, Clipped(data));
        var end := WriteLoop(writer, Link(mem, [], []), WrChunk(t), area, db, start, Clipped(data), 0, 0);
        WriteBytesMeans(c, mem, t, end);
      case ReadBit(area, db, byteNum, bitIdx) =>
        ReadBitInStep(reader, mem, t, area, db, BitAddress(byteNum, bitIdx));
        ReadBitMeans(c, mem, t, reader(Link(mem, [], []), BitItem(area, db, BitAddress(byteNum, bitIdx))));
      case WriteBit(area, db, byteNum, bitIdx, value) =>
        var v := [if value then 1 else 0];
        WriteBitInStep(writer, mem, t, area, db, BitAddress(byteNum, bitIdx), v[0]);
        WriteBitMeans(c, mem, t, writer(Link(mem, [], []), BitItem(area, db, BitAddress(byteNum, bitIdx)), v));
    }
  }

  lemma ReadBytesMeans(c: Call, mem: Memory, t: Advancing, end: ReadEnd)
    requires c.ReadBytes? && Valid(c) && |end.buffer| == c.n
    requires ReadsFlat(end, c.n, RdChunk(t),
                       ReadVerdict(t.pdu, t.longest, RdChunk(t), mem, KeyOf(c.area, c.db), c.start, c.n))
    requires var first := ByteItem(c.area, c.db, c.start, Min(c.n, RdChunk(t)));
             end.link == Link(mem, if end.r == Failure(IsoInvalidTelegram) then ReplyToRead(mem, first) else [], [])
    ensures Means(c, mem, t, end.link, Returned(end.r, end.buffer))
  {
    RepliesStart(mem, ByteItem(c.area, c.db, c.start, Min(c.n, RdChunk(t))), 0);
    assert end.buffer[..c.n] == end.buffer;
  }

  lemma WriteBytesMeans(c: Call, mem: Memory, t: Advancing, end: WriteEnd)
    requires c.WriteBytes? && Valid(c)
    requires WrittenInStep(end, mem, t, WrChunk(t), KeyOf(c.area, c.db), c.start, Clipped(c.data))
    ensures Means(c, mem, t, end.link, Returned(end.r, []))
  {
    var data := Clipped(c.data);
    RepliesStart(mem, ByteItem(c.area, c.db, c.start, 0),
                 AccessCode(mem, KeyOf(c.area, c.db), c.start, Min(|data|, WrChunk(t))));
    assert end.r.Success? ==> end.r.value == ();
    assert Plain(Returned(end.r, [])) == end.r;
    assert WriteVerdict(Plain(Returned(end.r, [])), mem, end.link.mem, KeyOf(c.area, c.db), c.start, data, t.pdu,
                        t.longest, WrChunk(t), end.chunks);
  }

  lemma ReadBitMeans(c: Call, mem: Memory, t: Advancing, end: JobEnd)
    requires c.ReadBit? && Valid(c)
    requires ReadsBit(end, mem, t, c.area, c.db, BitAddress(c.byteNum, c.bitIdx))
    ensures Means(c, mem, t, end.0, BitReturned(end.1))
  {
    BitAddressWraps(c.byteNum, c.bitIdx);
    RepliesStart(mem, BitItem(c.area, c.db, BitAddress(c.byteNum, c.bitIdx)), 0);
  }

  lemma WriteBitMeans(c: Call, mem: Memory, t: Advancing, end: JobEnd)
    requires c.WriteBit? && Valid(c)
    requires WritesBit(Plain(end.1), mem, end.0, t, KeyOf(c.area, c.db), BitAddress(c.byteNum, c.bitIdx), c.value)
    ensures Means(c, mem, t, end.0, Returned(Plain(end.1), []))
  {
    var bit := BitAddress(c.byteNum, c.bitIdx);
    BitAddressWraps(c.byteNum, c.bitIdx);
    RepliesStart(mem, BitItem(c.area, c.db, bit), AccessCode(mem, KeyOf(c.area, c.db), bit / 8, 1));
  }

  // ----------------------------------------------- faults only stop a call

  predicate Ungarbled(faults: seq<Fault>) { forall i :: 0 <= i < |faults| ==> !faults[i].Garbled? }

  /** Over faults a job from nothing unread times out, or does what it does on a prompt link. */
  ghost predicate StopsOrPrompt(got: Link, r: Result<seq<byte>, S7Error>, prompt: Link, p: Result<seq<byte>, S7Error>) {
    && Ungarbled(got.faults)
    && (r == Failure(Io)
        || (r == p && got.mem == prompt.mem && (r != Failure(IsoInvalidTelegram) ==> got.unread == [])))
  }

  lemma ExchangeStopsOrPrompt(mem: Memory, t: Terms, request: seq<byte>, minSize: nat, faults: seq<Fault>)
    requires Ungarbled(faults) && Expects(t, request, minSize)
    ensures var (got, r) := Transacted(Link(mem, [], faults), t, request, minSize);
            var (prompt, p) := Transacted(Link(mem, [], []), t, request, minSize);
            StopsOrPrompt(got, r, prompt, p) && (p.Success? ==> prompt == Link(prompt.mem, [], []))
  {
    ExchangeOverFault(mem, t, request, minSize, faults);
    ExchangeOverFault(mem, t, request, minSize, []);
    var reply := ReplyTo(mem, t.longest, request);
    if reply.Some? {
      VerdictStopsOrPrompt(t.pdu, reply.value, NextFault(faults));
    }
  }

  lemma VerdictStopsOrPrompt(pdu: u16, s7: seq<byte>, fault: Fault)
    requires !fault.Garbled? && |s7| > RW_RES_OFFSET
    ensures var (v, p) := (Verdict(pdu, s7, fault), Verdict(pdu, s7, Prompt));
            && (v == Failure(Io) || (v == p && !fault.SendFails? && !fault.Lost?))
            && (v != Failure(Io) && v != Failure(IsoInvalidTelegram) ==> LeftOf(pdu, Some(s7), fault) == [])
            && (p.Success? ==> LeftOf(pdu, Some(s7), Prompt) == [])
  {
  }

  ghost predicate ReaderStops(job: ReadJob) {
    forall mem: Memory, faults: seq<Fault>, item: Item {:trigger job(Link(mem, [], faults), item)} ::
      Ungarbled(faults) && item.address < 0x100_0000 ==>
        var (got, r) := job(Link(mem, [], faults), item);
        var (prompt, p) := job(Link(mem, [], []), item);
        StopsOrPrompt(got, r, prompt, p) && (p.Success? ==> prompt == Link(prompt.mem, [], []))
  }

  ghost predicate WriterStops(job: WriteJob) {
    forall mem: Memory, faults: seq<Fault>, item: Item, payload: seq<byte>
      {:trigger job(Link(mem, [], faults), item, payload)} ::
      Ungarbled(faults) && item.address < 0x100_0000 && |payload| <= 0xFFFF ==>
        var (got, r) := job(Link(mem, [], faults), item, payload);
        var (prompt, p) := job(Link(mem, [], []), item, payload);
        StopsOrPrompt(got, r, prompt, p) && (p.Success? ==> prompt == Link(prompt.mem, [], []))
  }

  lemma ReaderIsStopped(job: ReadJob, t: Terms)
    requires Reads(job, t)
    ensures ReaderStops(job)
  {
    forall mem: Memory, faults: seq<Fault>, item: Item {:trigger job(Link(mem, [], faults), item)}
      | Ungarbled(faults) && item.address < 0x100_0000
      ensures var (got, r) := job(Link(mem, [], faults), item);
              var (prompt, p) := job(Link(mem, [], []), item);
              StopsOrPrompt(got, r, prompt, p) && (p.Success? ==> prompt == Link(prompt.mem, [], []))
    {
      ReadRoundTrip(item);
      assert job(Link(mem, [], faults), item) == Transacted(Link(mem, [], faults), t, ReadRequest(item), READ_RES_LEN);
      assert job(Link(mem, [], []), item) == Transacted(Link(mem, [], []), t, ReadRequest(item), READ_RES_LEN);
      ExchangeStopsOrPrompt(mem, t, ReadRequest(item), READ_RES_LEN, faults);
    }
  }

  lemma WriterIsStopped(job: WriteJob, t: Terms)
    requires Writes(job, t)
    ensures WriterStops(job)
  {
    forall mem: Memory, faults: seq<Fault>, item: Item, payload: seq<byte>
      {:trigger job(Link(mem, [], faults), item, payload)}
      | Ungarbled(faults) && item.address < 0x100_0000 && |payload| <= 0xFFFF
      ensures var (got, r) := job(Link(mem, [], faults), item, payload);
              var (prompt, p) := job(Link(mem, [], []), item, payload);
              StopsOrPrompt(got, r, prompt, p) && (p.Success? ==> prompt == Link(prompt.mem, [], []))
    {
      WriteParsesOrNot(item, payload);
      var request := WriteRequest(item, payload);
      assert job(Link(mem, [], faults), item, payload) == Transacted(Link(mem, [], faults), t, request, WRITE_RES_LEN);
      assert job(Link(mem, [], []), item, payload) == Transacted(Link(mem, [], []), t, request, WRITE_RES_LEN);
      ExchangeStopsOrPrompt(mem, t, request, WRITE_RES_LEN, faults);
    }
  }

  lemma {:induction false} ReadLoopStops(job: ReadJob, mem: Memory, faults: seq<Fault>, chunk: nat, area: byte, db: u16,
                                         start: u16, n: u16, buffer: seq<byte>, offset: nat, chunks: nat)
    requires chunk > 0 && offset <= n <= |buffer| && ReaderStops(job) && Ungarbled(faults)
    ensures var end := ReadLoop(job, Link(mem, [], faults), chunk, area, db, start, n, buffer, offset, chunks);
            var prompt := ReadLoop(job, Link(mem, [], []), chunk, area, db, start, n, buffer, offset, chunks);
            StopsOrPrompt(end.link, Returned(end.r, end.buffer), prompt.link, Returned(prompt.r, prompt.buffer))
    decreases n - offset
  {
    if offset < n {
      var item := ByteItem(area, db, start + offset, Min(n - offset, chunk));
      var (after, r) := job(Link(mem, [], faults), item);
      var (prompt, p) := job(Link(mem, [], []), item);
      var next, promptNext := Filled(r, item.count, buffer, offset), Filled(p, item.count, buffer, offset);
      ReadLoopTurn(job, Link(mem, [], faults), chunk, area, db, start, n, buffer, offset, chunks, after, Plain(r),
                   next);
      ReadLoopTurn(job, Link(mem, [], []), chunk, area, db, start, n, buffer, offset, chunks, prompt, Plain(p),
                   promptNext);
      if r.Success? {
        ReadLoopStops(job, after.mem, after.faults, chunk, area, db, start, n, next, offset + item.count, chunks + 1);
      }
    }
  }

  lemma {:induction false} WriteLoopStops(job: WriteJob, mem: Memory, faults: seq<Fault>, chunk: nat, area: byte,
                                          db: u16, start: u16, data: seq<byte>, offset: nat, chunks: nat)
    requires chunk > 0 && offset <= |data| <= 0xFFFF && WriterStops(job) && Ungarbled(faults)
    ensures var end := WriteLoop(job, Link(mem, [], faults), chunk, area, db, start, data, offset, chunks);
            var prompt := WriteLoop(job, Link(mem, [], []), chunk, area, db, start, data, offset, chunks);
            StopsOrPrompt(end.link, Returned(end.r, []), prompt.link, Returned(prompt.r, []))
    decreases |data| - offset
  {
    if offset < |data| {
      var part := data[offset..offset + Min(|data| - offset, chunk)];
      var item := ByteItem(area, db, start + offset, |part|);
      var (after, r) := job(Link(mem, [], faults), item, part);
      var (prompt, p) := job(Link(mem, [], []), item, part);
      WriteLoopTurn(job, Link(mem, [], faults), chunk, area, db, start, data, offset, chunks, after, Plain(r));
      WriteLoopTurn(job, Link(mem, [], []), chunk, area, db, start, data, offset, chunks, prompt, Plain(p));
      if r.Success? {
        WriteLoopStops(job, after.mem, after.faults, chunk, area, db, start, data, offset + |part|, chunks + 1);
      }
    }
  }

  lemma JobsOnlyStop(reader: ReadJob, writer: WriteJob, c: Call, mem: Memory, t: Advancing, faults: seq<Fault>)
    requires Ungarbled(faults) && ReaderStops(reader) && WriterStops(writer)
    ensures var (got, r) := MadeBy(reader, writer, Link(mem, [], faults), t, c);
            var (prompt, p) := MadeBy(reader, writer, Link(mem, [], []), t, c);
            StopsOrPrompt(got, r, prompt, p)
  {
    if Valid(c) {
      match c
      case ReadBytes(area, db, start, n) =>
        ReadLoopStops(reader, mem, faults, RdChunk(t), area, db, start, n, Zeros(n), 0, 0);
      case WriteBytes(area, db, start, data) =>
        WriteLoopStops(writer, mem, faults, WrChunk(t), area, db, start, Clipped(data), 0, 0);
      case ReadBit(area, db, byteNum, bitIdx) =>
        var (got, r) := reader(Link(mem, [], faults), BitItem(area, db, BitAddress(byteNum, bitIdx)));
      case WriteBit(area, db, byteNum, bitIdx, value) =>
        var v := [if value then 1 else 0];
        var (got, r) := writer(Link(mem, [], faults), BitItem(area, db, BitAddress(byteNum, bitIdx)), v);
    }
  }

  /**
   Whatever is lost, late or cut off: a call that starts with nothing unread fails with an I/O error, or
   does exactly what it does on a prompt link, and leaves nothing unread unless a reply is refused.
   */
  lemma FaultsOnlyStop(c: Call, mem: Memory, t: Advancing, faults: seq<Fault>)
    requires Ungarbled(faults)
    ensures var (got, r) := Made(Link(mem, [], faults), t, c);
            var (prompt, p) := Made(Link(mem, [], []), t, c);
            StopsOrPrompt(got, r, prompt, p)
  {
    ReaderIsStopped(Reader(t), t);
    WriterIsStopped(Writer(t), t);
    JobsOnlyStop(Reader(t), Writer(t), c, mem, t, faults);
  }
}
