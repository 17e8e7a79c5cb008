/**
 The chunked transfers of crates/plugin-s7/src/s7/client.rs as functions on the connection, for any link
 and any unread bytes, and what they are in step: one flat copy, whatever PDU length was negotiated, up
 to the first chunk that is dropped or whose reply is refused.
 */
module S7Transfer {
  import opened Common
  import opened S7Telegram
  import opened S7Link

  // --------------------------------------------------------- flat specification

  /** Reading `n` bytes in one piece. */
  function FlatRead(mem: Memory, key: Key, start: nat, n: nat): Result<seq<byte>, S7Error> {
    if n == 0 then Success([])
    else if key !in mem then Failure(S7NotFound)
    else if start + n > |mem[key]| then Failure(S7InvalidAddress)
    else Success(mem[key][start..start + n])
  }

  /** A flat read extended by the next `m` bytes. */
  lemma FlatReadExtend(mem: Memory, key: Key, start: nat, n: nat, m: nat)
    requires FlatRead(mem, key, start, n).Success? && m > 0
    requires key in mem && start + n + m <= |mem[key]|
    ensures FlatRead(mem, key, start, n + m)
         == Success(FlatRead(mem, key, start, n).value + mem[key][start + n..start + n + m])
  {
    var have := FlatRead(mem, key, start, n).value;
    assert have == mem[key][start..start + n];
    assert have + mem[key][start + n..start + n + m] == mem[key][start..start + n + m];
  }

  /** Writing `data` in one piece. */
  function FlatWrite(mem: Memory, key: Key, start: nat, data: seq<byte>): Result<Memory, S7Error> {
    if |data| == 0 then Success(mem)
    else if key !in mem then Failure(S7NotFound)
    else if start + |data| > |mem[key]| then Failure(S7InvalidAddress)
    else Success(mem[key := Splice(mem[key], start, data)])
  }

  /** A flat write extended by the next chunk. */
  lemma FlatWriteExtend(mem: Memory, key: Key, start: nat, data: seq<byte>, chunk: seq<byte>)
    requires FlatWrite(mem, key, start, data).Success? && chunk != []
    requires key in mem && start + |data| + |chunk| <= |mem[key]|
    ensures var now := FlatWrite(mem, key, start, data).value;
            && key in now && |now[key]| == |mem[key]|
            && FlatWrite(mem, key, start, data + chunk)
            == Success(now[key := Splice(now[key], start + |data|, chunk)])
  {
    var now := FlatWrite(mem, key, start, data).value;
    var area := Splice(mem[key], start, data + chunk);
    assert area == Splice(now[key], start + |data|, chunk);
    assert mem[key := area] == now[key := area];
  }

  lemma WriteGoesOn(mem: Memory, now: Memory, key: Key, start: nat, data: seq<byte>, done: nat, size: nat)
    requires done < done + size <= |data| && FlatWrite(mem, key, start, data[..done]) == Success(now)
    requires AccessCode(now, key, start + done, size) == RES_SUCCESS
    ensures FlatWrite(mem, key, start, data[..done + size])
         == Success(now[key := Splice(now[key], start + done, data[done..done + size])])
  {
    FlatWriteExtend(mem, key, start, data[..done], data[done..done + size]);
    assert data[..done] + data[done..done + size] == data[..done + size];
  }

  /** A chunk that does not fit: the flat write fails the same way, after the chunks before it. */
  lemma WriteStops(mem: Memory, now: Memory, key: Key, start: nat, data: seq<byte>, done: nat, size: nat)
    requires done < done + size <= |data| && FlatWrite(mem, key, start, data[..done]) == Success(now)
    requires AccessCode(now, key, start + done, size) != RES_SUCCESS
    ensures FlatWrite(mem, key, start, data) == Failure(CodeError(AccessCode(now, key, start + done, size)))
    ensures key in mem ==> start + done + size > |mem[key]|
    ensures key !in mem ==> now == mem
  {
  }

  lemma ReadAfterWrite(mem: Memory, key: Key, start: nat, data: seq<byte>)
    requires FlatWrite(mem, key, start, data).Success?
    ensures FlatRead(FlatWrite(mem, key, start, data).value, key, start, |data|) == Success(data)
  {
    if data != [] {
      assert Splice(mem[key], start, data)[start..start + |data|] == data;
    }
  }

  lemma ReadOutcome(mem: Memory, area: byte, db: u16, at: nat, count: u16)
    ensures var out := Execute(mem, Read(Item(WL_BYTE, count, db, area, at * 8)));
            var code := AccessCode(mem, KeyOf(area, db), at, count);
            && out.mem == mem && out.code == code
            && out.payload == if code == RES_SUCCESS then mem[KeyOf(area, db)][at..at + count] else []
  {
  }

  lemma WriteOutcome(mem: Memory, area: byte, db: u16, at: nat, chunk: seq<byte>)
    requires |chunk| < 0x1_0000
    ensures var out := Execute(mem, Write(Item(WL_BYTE, |chunk|, db, area, at * 8), chunk));
            var key := KeyOf(area, db);
            && out.code == AccessCode(mem, key, at, |chunk|)
            && out.mem == if out.code == RES_SUCCESS then mem[key := Splice(mem[key], at, chunk)] else mem
  {
  }

  /** After `chunks` chunks `done` of `total` bytes are transferred, as fast as the chunk length allows. */
  predicate Counted(done: nat, total: nat, chunk: nat, chunks: nat)
    requires chunk > 0
  {
    done <= total && chunks + CeilDiv(total - done, chunk) == CeilDiv(total, chunk)
  }

  lemma CountChunk(done: nat, total: nat, chunk: nat, chunks: nat)
    requires chunk > 0 && done < total && Counted(done, total, chunk, chunks)
    ensures Counted(done + Min(total - done, chunk), total, chunk, chunks + 1)
  {
  }

  /** `done` bytes are the full chunks before the last of `chunks`. */
  predicate FitsChunks(done: nat, total: nat, chunk: nat, chunks: nat) {
    done < total && chunks > 0 && done == chunk * (chunks - 1)
  }

  lemma NextChunk(done: nat, total: nat, chunk: nat, chunks: nat)
    requires FitsChunks(done, total, chunk, chunks) && done + chunk < total
    ensures FitsChunks(done + chunk, total, chunk, chunks + 1)
  {
  }

  /** The verdict on reading `count` bytes by one job that the PLC answers with `code`. */
  function ReadJobVerdict(pdu: u16, longest: nat, code: byte, count: nat): Result<(), S7Error> {
    if READ_REQ_LEN > longest then Failure(Io)
    else ReplyVerdict(pdu, READ_RES_LEN + (if code == RES_SUCCESS then count else 0), code)
  }

  /** What reading `n` bytes in chunks gives: the verdict on the first and longest chunk, then the flat read. */
  function ReadVerdict(pdu: u16, longest: nat, chunk: nat, mem: Memory, key: Key, start: nat, n: nat)
    : (r: Result<seq<byte>, S7Error>)
    ensures r.Success? ==> r == FlatRead(mem, key, start, n)
  {
    var first := Min(n, chunk);
    if n == 0 then Success([])
    else
      match ReadJobVerdict(pdu, longest, AccessCode(mem, key, start, first), first)
      case Failure(error) => Failure(error)
      case Success(_) => FlatRead(mem, key, start, n)
  }

  /** `done` is what the chunks so far have read; the first one went through. */
  ghost predicate ReadSoFar(pdu: u16, longest: nat, chunk: nat, mem: Memory, key: Key, start: nat, n: nat,
                            done: seq<byte>)
  {
    && |done| <= n && FlatRead(mem, key, start, |done|) == Success(done)
    && (done != [] ==> ReadJobVerdict(pdu, longest, RES_SUCCESS, Min(n, chunk)).Success?)
  }

  /** What one read job gives: `data` is the stretch of the buffer it fills. */
  ghost predicate ReadsChunk(r: Result<(), S7Error>, data: seq<byte>, mem: Memory, key: Key, at: nat, count: nat,
                             pdu: u16, longest: nat)
  {
    var code := AccessCode(mem, key, at, count);
    && r == ReadJobVerdict(pdu, longest, code, count)
    && (r.Success? ==> code == RES_SUCCESS && data == mem[key][at..at + count])
  }

  lemma ReadGoesOn(pdu: u16, longest: nat, chunk: nat, mem: Memory, key: Key, start: nat, n: nat, done: seq<byte>,
                   r: Result<(), S7Error>, data: seq<byte>)
    requires chunk > 0 && ReadSoFar(pdu, longest, chunk, mem, key, start, n, done) && |done| < n
    requires ReadsChunk(r, data, mem, key, start + |done|, Min(n - |done|, chunk), pdu, longest) && r.Success?
    ensures ReadSoFar(pdu, longest, chunk, mem, key, start, n, done + data)
  {
    FlatReadExtend(mem, key, start, |done|, Min(n - |done|, chunk));
  }

  /** A chunk that fails: the whole read fails the same way. */
  lemma ReadStops(pdu: u16, longest: nat, chunk: nat, mem: Memory, key: Key, start: nat, n: nat, done: seq<byte>,
                  r: Result<(), S7Error>, data: seq<byte>)
    requires chunk > 0 && ReadSoFar(pdu, longest, chunk, mem, key, start, n, done) && |done| < n
    requires ReadsChunk(r, data, mem, key, start + |done|, Min(n - |done|, chunk), pdu, longest) && r.Failure?
    ensures ReadVerdict(pdu, longest, chunk, mem, key, start, n) == Failure(r.error)
  {
  }

  lemma ReadDone(pdu: u16, longest: nat, chunk: nat, mem: Memory, key: Key, start: nat, n: nat, done: seq<byte>)
    requires chunk > 0 && ReadSoFar(pdu, longest, chunk, mem, key, start, n, done) && |done| == n
    ensures ReadVerdict(pdu, longest, chunk, mem, key, start, n) == Success(done)
  {
  }

  /** A write job of `size` payload bytes that the PLC drops: too long for it, or with its bit count cut. */
  predicate Dropped(longest: nat, size: nat) { WRITE_REQ_LEN + size > longest || size >= 8192 }

  /** The verdict on writing one chunk, and memory after it. */
  function WriteJobVerdict(pdu: u16, longest: nat, code: byte, size: nat): Result<(), S7Error> {
    if Dropped(longest, size) then Failure(Io) else ReplyVerdict(pdu, WRITE_RES_LEN, code)
  }

  function AfterWriteJob(mem: Memory, longest: nat, key: Key, at: nat, chunk: seq<byte>): Memory {
    if !Dropped(longest, |chunk|) && AccessCode(mem, key, at, |chunk|) == RES_SUCCESS
    then mem[key := Splice(mem[key], at, chunk)]
    else mem
  }

  /**
   The call did what the flat write does, in as few chunks as the PDU allows. A write that runs off
   the end of the area has still written every chunk before the one that failed.
   */
  ghost predicate WritesFlat(r: Result<(), S7Error>, before: Memory, after: Memory, key: Key, start: nat,
                             data: seq<byte>, chunk: nat, chunks: nat)
    requires chunk > 0
  {
    match FlatWrite(before, key, start, data)
    case Success(mem) => r.Success? && after == mem && chunks == CeilDiv(|data|, chunk)
    case Failure(error) =>
      && r == Failure(error)
      && (error == S7NotFound ==> after == before)
      && (error == S7InvalidAddress ==>
            exists done: nat :: && FitsChunks(done, |data|, chunk, chunks)
                           && FlatWrite(before, key, start, data[..done]) == Success(after)
                           && start + Min(done + chunk, |data|) > |before[key]|)
  }

  /**
   What writing `data` in chunks does, over any PDU length: if the first and longest chunk is dropped, or
   its reply refused, that is all; otherwise it is the flat write.
   */
  ghost predicate WriteVerdict(r: Result<(), S7Error>, before: Memory, after: Memory, key: Key, start: nat,
                               data: seq<byte>, pdu: u16, longest: nat, chunk: nat, chunks: nat)
    requires chunk > 0
  {
    var first := Min(|data|, chunk);
    if data != [] && (Dropped(longest, first) || pdu < WRITE_RES_LEN) then
      && r == Failure(if Dropped(longest, first) then Io else IsoInvalidTelegram)
      && after == AfterWriteJob(before, longest, key, start, data[..first])
      && chunks == 1
    else
      WritesFlat(r, before, after, key, start, data, chunk, chunks)
  }

  /** `done` bytes of `data` are written in `chunks` chunks, the first of which went through. */
  ghost predicate WriteSoFar(mem: Memory, now: Memory, key: Key, start: nat, data: seq<byte>, done: nat,
                             pdu: u16, longest: nat, chunk: nat, chunks: nat)
    requires chunk > 0
  {
    && done <= |data| && FlatWrite(mem, key, start, data[..done]) == Success(now)
    && (done > 0 ==> !Dropped(longest, Min(|data|, chunk)) && pdu >= WRITE_RES_LEN)
    && Counted(done, |data|, chunk, chunks)
    && (done < |data| ==> FitsChunks(done, |data|, chunk, chunks + 1))
  }

  /** What the next chunk does to memory, and what the client makes of it. */
  ghost predicate WritesChunk(r: Result<(), S7Error>, now: Memory, after: Memory, key: Key, at: nat, chunk: seq<byte>,
                              pdu: u16, longest: nat)
  {
    && r == WriteJobVerdict(pdu, longest, AccessCode(now, key, at, |chunk|), |chunk|)
    && after == AfterWriteJob(now, longest, key, at, chunk)
  }

  lemma WriteStep(r: Result<(), S7Error>, mem: Memory, now: Memory, after: Memory, key: Key, start: nat,
                  data: seq<byte>, done: nat, pdu: u16, longest: nat, chunk: nat, chunks: nat)
    requires chunk > 0 && WriteSoFar(mem, now, key, start, data, done, pdu, longest, chunk, chunks) && done < |data|
    requires WritesChunk(r, now, after, key, start + done, data[done..done + Min(|data| - done, chunk)], pdu, longest)
    requires r.Success?
    ensures WriteSoFar(mem, after, key, start, data, done + Min(|data| - done, chunk), pdu, longest, chunk, chunks + 1)
  {
    WriteGoesOn(mem, now, key, start, data, done, Min(|data| - done, chunk));
    CountChunk(done, |data|, chunk, chunks);
    if done + chunk < |data| {
      NextChunk(done, |data|, chunk, chunks + 1);
    }
  }

  /** A chunk that fails ends the call as the whole write ends, after the chunks before it. */
  lemma WriteEnds(r: Result<(), S7Error>, mem: Memory, now: Memory, after: Memory, key: Key, start: nat,
                  data: seq<byte>, done: nat, pdu: u16, longest: nat, chunk: nat, chunks: nat)
    requires chunk > 0 && WriteSoFar(mem, now, key, start, data, done, pdu, longest, chunk, chunks) && done < |data|
    requires WritesChunk(r, now, after, key, start + done, data[done..done + Min(|data| - done, chunk)], pdu, longest)
    requires r.Failure?
    ensures WriteVerdict(r, mem, after, key, start, data, pdu, longest, chunk, chunks + 1)
  {
    var size := Min(|data| - done, chunk);
    if done == 0 {
      assert now == mem && chunks == 0;
      assert data[done..done + size] == data[..size];
    }
    if !Dropped(longest, Min(|data|, chunk)) && pdu >= WRITE_RES_LEN {
      WriteStops(mem, now, key, start, data, done, size);
    }
  }

  lemma WriteDone(mem: Memory, now: Memory, key: Key, start: nat, data: seq<byte>, pdu: u16, longest: nat, chunk: nat,
                  chunks: nat)
    requires chunk > 0 && WriteSoFar(mem, now, key, start, data, |data|, pdu, longest, chunk, chunks)
    ensures WriteVerdict(Success(()), mem, now, key, start, data, pdu, longest, chunk, chunks)
  {
    assert data[..|data|] == data;
  }

  // -------------------------------------------------------------- the transfers

  function Plain(r: Result<seq<byte>, S7Error>): Result<(), S7Error> {
    if r.Success? then Success(()) else Failure(r.error)
  }

  /** What came back for a read job, however short, is copied to `offset`. */
  function Filled(reply: Result<seq<byte>, S7Error>, count: u16, buffer: seq<byte>, offset: nat): (filled: seq<byte>)
    requires offset + count <= |buffer|
    ensures |filled| == |buffer|
    ensures forall i :: 0 <= i < |buffer| && !(offset <= i < offset + count) ==> filled[i] == buffer[i]
  {
    if reply.Failure? || |reply.value| < READ_RES_LEN then buffer
    else Splice(buffer, offset, reply.value[READ_RES_LEN..READ_RES_LEN + Min(|reply.value| - READ_RES_LEN, count)])
  }

  /** Of a reply that came back, the bytes from 18 on are copied, as many as were asked for and are there. */
  lemma FilledIs(s7: seq<byte>, count: u16, buffer: seq<byte>, offset: nat, i: nat)
    requires offset + count <= |buffer| && i < |buffer|
    ensures Filled(Success(s7), count, buffer, offset)[i]
         == if offset <= i < offset + count && 18 + i - offset < |s7| then s7[18 + i - offset] else buffer[i]
  {
  }

  /** How one job goes on a connection. */
  type ReadJob = (Link, Item) -> JobEnd

  type WriteJob = (Link, Item, seq<byte>) -> JobEnd

  function Reader(t: Terms): ReadJob {
    (l: Link, item: Item) => Transacted(l, t, ReadRequest(item), READ_RES_LEN)
  }

  function Writer(t: Terms): WriteJob {
    (l: Link, item: Item, payload: seq<byte>) => Transacted(l, t, WriteRequest(item, payload), WRITE_RES_LEN)
  }

  /** `job` is what a client on these terms does. */
  ghost predicate Reads(job: ReadJob, t: Terms) {
    forall l: Link, item: Item {:trigger Transacted(l, t, ReadRequest(item), READ_RES_LEN)} ::
      job(l, item) == Transacted(l, t, ReadRequest(item), READ_RES_LEN)
  }

  ghost predicate Writes(job: WriteJob, t: Terms) {
    forall l: Link, item: Item, payload: seq<byte>
      {:trigger Transacted(l, t, WriteRequest(item, payload), WRITE_RES_LEN)} ::
      job(l, item, payload) == Transacted(l, t, WriteRequest(item, payload), WRITE_RES_LEN)
  }

  function ByteItem(area: byte, db: u16, at: nat, count: u16): Item { Item(WL_BYTE, count, db, area, at * 8) }

  datatype ReadEnd = ReadEnd(link: Link, r: Result<(), S7Error>, buffer: seq<byte>, chunks: nat)

  /** The read loop from `offset` on, `chunks` chunks having been read. */
  function ReadLoop(job: ReadJob, l: Link, chunk: nat, area: byte, db: u16, start: u16, n: u16, buffer: seq<byte>,
                    offset: nat, chunks: nat): (end: ReadEnd)
    requires chunk > 0 && offset <= n <= |buffer|
    ensures |end.buffer| == |buffer|
    decreases n - offset
  {
    if offset == n then ReadEnd(l, Success(()), buffer, chunks)
    else
      var size := Min(n - offset, chunk);
      var (after, reply) := job(l, ByteItem(area, db, start + offset, size));
      var next := Filled(reply, size, buffer, offset);
      if reply.Failure? then ReadEnd(after, Plain(reply), next, chunks + 1)
      else ReadLoop(job, after, chunk, area, db, start, n, next, offset + size, chunks + 1)
  }

  lemma ReadLoopTurn(job: ReadJob, l: Link, chunk: nat, area: byte, db: u16, start: u16, n: u16, buffer: seq<byte>,
                     offset: nat, chunks: nat, after: Link, r: Result<(), S7Error>, next: seq<byte>)
    requires chunk > 0 && offset < n <= |buffer| == |next|
    requires var size := Min(n - offset, chunk);
             var (end, reply) := job(l, ByteItem(area, db, start + offset, size));
             after == end && r == Plain(reply) && next == Filled(reply, size, buffer, offset)
    ensures ReadLoop(job, l, chunk, area, db, start, n, buffer, offset, chunks)
         == if r.Failure? then ReadEnd(after, r, next, chunks + 1)
            else ReadLoop(job, after, chunk, area, db, start, n, next, offset + Min(n - offset, chunk), chunks + 1)
  {
    var size := Min(n - offset, chunk);
    var (end, reply) := job(l, ByteItem(area, db, start + offset, size));
    assert after == end && r == Plain(reply) && next == Filled(reply, size, buffer, offset);
  }

  /** Whatever the link does, the buffer behind the first `n` bytes is not touched. */
  lemma {:induction false} ReadLoopKeeps(job: ReadJob, l: Link, chunk: nat, area: byte, db: u16, start: u16, n: u16,
                                         buffer: seq<byte>, offset: nat, chunks: nat, i: nat)
    requires chunk > 0 && offset <= n <= i < |buffer|
    ensures ReadLoop(job, l, chunk, area, db, start, n, buffer, offset, chunks).buffer[i] == buffer[i]
    decreases n - offset
  {
    if offset < n {
      var size := Min(n - offset, chunk);
      var (after, r) := job(l, ByteItem(area, db, start + offset, size));
      if r.Success? {
        ReadLoopKeeps(job, after, chunk, area, db, start, n, Filled(r, size, buffer, offset), offset + size,
                      chunks + 1, i);
      }
    }
  }

  lemma ReadLoopFrame(job: ReadJob, l: Link, chunk: nat, area: byte, db: u16, start: u16, n: u16, buffer: seq<byte>)
    requires chunk > 0 && n <= |buffer|
    ensures forall i :: n <= i < |buffer| ==>
              ReadLoop(job, l, chunk, area, db, start, n, buffer, 0, 0).buffer[i] == buffer[i]
  {
    forall i | n <= i < |buffer|
      ensures ReadLoop(job, l, chunk, area, db, start, n, buffer, 0, 0).buffer[i] == buffer[i]
    {
      ReadLoopKeeps(job, l, chunk, area, db, start, n, buffer, 0, 0, i);
    }
  }

  datatype WriteEnd = WriteEnd(link: Link, r: Result<(), S7Error>, chunks: nat)

  /** The write loop from `offset` on, `chunks` chunks having been written. */
  function WriteLoop(job: WriteJob, l: Link, chunk: nat, area: byte, db: u16, start: u16, data: seq<byte>,
                     offset: nat, chunks: nat): WriteEnd
    requires chunk > 0 && offset <= |data| <= 0xFFFF
    decreases |data| - offset
  {
    if offset == |data| then WriteEnd(l, Success(()), chunks)
    else
      var size := Min(|data| - offset, chunk);
      var (after, r) := job(l, ByteItem(area, db, start + offset, size), data[offset..offset + size]);
      if r.Failure? then WriteEnd(after, Plain(r), chunks + 1)
      else WriteLoop(job, after, chunk, area, db, start, data, offset + size, chunks + 1)
  }

  lemma WriteLoopTurn(job: WriteJob, l: Link, chunk: nat, area: byte, db: u16, start: u16, data: seq<byte>,
                      offset: nat, chunks: nat, after: Link, r: Result<(), S7Error>)
    requires chunk > 0 && offset < |data| <= 0xFFFF
    requires var size := Min(|data| - offset, chunk);
             var (end, reply) := job(l, ByteItem(area, db, start + offset, size), data[offset..offset + size]);
             after == end && r == Plain(reply)
    ensures WriteLoop(job, l, chunk, area, db, start, data, offset, chunks)
         == if r.Failure? then WriteEnd(after, r, chunks + 1)
            else WriteLoop(job, after, chunk, area, db, start, data, offset + Min(|data| - offset, chunk), chunks + 1)
  {
    var size := Min(|data| - offset, chunk);
    var (end, reply) := job(l, ByteItem(area, db, start + offset, size), data[offset..offset + size]);
    assert after == end && r == Plain(reply);
  }

  // ---------------------------------------------------------- read jobs in step

  /** What a read of `count` bytes gives in step: memory untouched, and nothing unread unless it is refused. */
  ghost predicate ReadsInStep(end: JobEnd, mem: Memory, t: Terms, key: Key, at: nat,
                              count: nat)
  {
    var verdict := ReadJobVerdict(t.pdu, t.longest, AccessCode(mem, key, at, count), count);
    && end.0 == Link(mem, end.0.unread, [])
    && (end.0.unread != [] <==> verdict == Failure(IsoInvalidTelegram))
    && match verdict
       case Success(_) =>
         && AccessCode(mem, key, at, count) == RES_SUCCESS
         && end.1.Success? && |end.1.value| == READ_RES_LEN + count
         && end.1.value[READ_RES_LEN..] == mem[key][at..at + count]
       case Failure(error) => end.1 == Failure(error)
  }

  ghost predicate ReaderInStep(job: ReadJob, mem: Memory, t: Terms, area: byte, db: u16) {
    forall at: nat, count: u16 {:trigger ByteItem(area, db, at, count)} :: at < 0x2_0000 ==>
      ReadsInStep(job(Link(mem, [], []), ByteItem(area, db, at, count)), mem, t, KeyOf(area, db), at, count)
  }

  /** The reply to a read job that is refused for its size. */
  function ReplyToRead(mem: Memory, item: Item): seq<byte> {
    var out := Execute(mem, Read(item));
    ReplyBytes(Read(item), out.code, out.payload)
  }

  /** What any read job does in step, a bit included. */
  ghost predicate ReadItemInStep(end: JobEnd, mem: Memory, t: Terms, item: Item) {
    var out := Execute(mem, Read(item));
    var verdict := if READ_REQ_LEN > t.longest then Failure(Io)
                   else ReplyVerdict(t.pdu, READ_RES_LEN + |out.payload|, out.code);
    && end.0 == Link(mem, if verdict == Failure(IsoInvalidTelegram) then ReplyToRead(mem, item) else [], [])
    && Reported(end.1, verdict, out.payload, READ_RES_LEN)
  }

  lemma ReaderItemInStep(job: ReadJob, mem: Memory, t: Terms, item: Item)
    requires Reads(job, t) && item.address < 0x100_0000
    ensures ReadItemInStep(job(Link(mem, [], []), item), mem, t, item)
  {
    assert job(Link(mem, [], []), item) == Transacted(Link(mem, [], []), t, ReadRequest(item), READ_RES_LEN);
    ReadRoundTrip(item);
    ReadRequestInStep(mem, t, ReadRequest(item), item);
  }

  lemma ReadRequestInStep(mem: Memory, t: Terms, request: seq<byte>, item: Item)
    requires |request| == READ_REQ_LEN && Parse(request) == Some(Read(item))
    ensures ReadItemInStep(Transacted(Link(mem, [], []), t, request, READ_RES_LEN), mem, t, item)
  {
    PromptInStep(mem, t, request, READ_RES_LEN);
    ReadItemFromInStep(Transacted(Link(mem, [], []), t, request, READ_RES_LEN), mem, t, request, item);
  }

  lemma ReadItemFromInStep(end: JobEnd, mem: Memory, t: Terms, request: seq<byte>, item: Item)
    requires |request| == READ_REQ_LEN && Parse(request) == Some(Read(item))
    requires InStep(end, mem, t, request, READ_RES_LEN)
    ensures ReadItemInStep(end, mem, t, item)
  {
  }

  lemma BytesFromItem(end: JobEnd, mem: Memory, t: Terms, area: byte, db: u16, at: nat,
                      count: u16)
    requires ReadItemInStep(end, mem, t, ByteItem(area, db, at, count))
    ensures ReadsInStep(end, mem, t, KeyOf(area, db), at, count)
  {
    ReadOutcome(mem, area, db, at, count);
  }

  lemma ReaderIsInStep(job: ReadJob, mem: Memory, t: Terms, area: byte, db: u16)
    requires Reads(job, t)
    ensures ReaderInStep(job, mem, t, area, db)
  {
    forall at: nat, count: u16 {:trigger ByteItem(area, db, at, count)} | at < 0x2_0000
      ensures ReadsInStep(job(Link(mem, [], []), ByteItem(area, db, at, count)), mem, t, KeyOf(area, db), at, count)
    {
      ReaderItemInStep(job, mem, t, ByteItem(area, db, at, count));
      BytesFromItem(job(Link(mem, [], []), ByteItem(area, db, at, count)), mem, t, area, db, at, count);
    }
  }

  // ------------------------------------------------------------ the read loop

  /** The whole call in step: the verdict on its first chunk, then the flat read. */
  ghost predicate ReadsFlat(end: ReadEnd, n: nat, chunk: nat, flat: Result<seq<byte>, S7Error>)
    requires chunk > 0 && n <= |end.buffer|
  {
    match flat
    case Success(value) => end.r.Success? && end.buffer[..n] == value && end.chunks == CeilDiv(n, chunk)
    case Failure(error) => end.r == Failure(error)
  }

  /** What the next turn of the loop makes of what was read so far. */
  lemma ReadTurn(end: JobEnd, mem: Memory, t: Terms, chunk: nat, key: Key,
                 start: u16, n: u16, buffer: seq<byte>, offset: nat)
    requires chunk > 0 && offset < n <= |buffer|
    requires ReadSoFar(t.pdu, t.longest, chunk, mem, key, start, n, buffer[..offset])
    requires ReadsInStep(end, mem, t, key, start + offset, Min(n - offset, chunk))
    ensures end.1.Failure? ==> ReadVerdict(t.pdu, t.longest, chunk, mem, key, start, n) == Failure(end.1.error)
    ensures end.1.Failure? && offset > 0 ==> end.0.unread == []
    ensures end.1.Success? ==>
              && end.0.unread == []
              && ReadSoFar(t.pdu, t.longest, chunk, mem, key, start, n,
                           Filled(end.1, Min(n - offset, chunk), buffer, offset)[..offset + Min(n - offset, chunk)])
  {
    var size := Min(n - offset, chunk);
    var filled := Filled(end.1, size, buffer, offset);
    var data := filled[offset..offset + size];
    if end.1.Failure? {
      ReadStops(t.pdu, t.longest, chunk, mem, key, start, n, buffer[..offset], Plain(end.1), data);
    } else {
      assert data == mem[key][start + offset..start + offset + size];
      assert filled[..offset + size] == buffer[..offset] + data;
      ReadGoesOn(t.pdu, t.longest, chunk, mem, key, start, n, buffer[..offset], Plain(end.1), data);
    }
  }

  /** What is left unread after the loop: nothing, but for the first chunk's job. */
  function LeftBy(job: ReadJob, mem: Memory, first: Item, begun: bool): seq<byte> {
    if begun then [] else job(Link(mem, [], []), first).0.unread
  }

  /** One turn of the loop: it goes on with more read, or ends as the whole read does. */
  lemma ReadTurnInStep(job: ReadJob, mem: Memory, t: Terms, chunk: nat, area: byte, db: u16, start: u16, n: u16,
                       buffer: seq<byte>, offset: nat, chunks: nat)
    returns (end: JobEnd, next: seq<byte>)
    requires chunk > 0 && offset < n <= |buffer| && ReaderInStep(job, mem, t, area, db)
    requires ReadSoFar(t.pdu, t.longest, chunk, mem, KeyOf(area, db), start, n, buffer[..offset])
    ensures end == job(Link(mem, [], []), ByteItem(area, db, start + offset, Min(n - offset, chunk)))
    ensures end.0 == Link(mem, end.0.unread, []) && (offset > 0 || end.1.Success? ==> end.0.unread == [])
    ensures var upto := offset + Min(n - offset, chunk);
            && |next| == |buffer|
            && ReadLoop(job, Link(mem, [], []), chunk, area, db, start, n, buffer, offset, chunks)
            == (if end.1.Failure? then ReadEnd(end.0, Plain(end.1), next, chunks + 1)
                else ReadLoop(job, end.0, chunk, area, db, start, n, next, upto, chunks + 1))
            && (end.1.Success? ==> ReadSoFar(t.pdu, t.longest, chunk, mem, KeyOf(area, db), start, n, next[..upto]))
    ensures end.1.Failure? ==>
              ReadVerdict(t.pdu, t.longest, chunk, mem, KeyOf(area, db), start, n) == Failure(end.1.error)
  {
    var size := Min(n - offset, chunk);
    end := job(Link(mem, [], []), ByteItem(area, db, start + offset, size));
    next := Filled(end.1, size, buffer, offset);
    var (after, reply) := job(Link(mem, [], []), ByteItem(area, db, start + offset, size));
    ReadLoopTurn(job, Link(mem, [], []), chunk, area, db, start, n, buffer, offset, chunks, after, Plain(reply), next);
    ReadTurn(end, mem, t, chunk, KeyOf(area, db), start, n, buffer, offset);
  }

  /**
   On a prompt link with nothing unread the loop refines the flat read, and leaves nothing unread unless
   the reply to its first chunk is refused.
   */
  lemma {:induction false} ReadLoopInStep(job: ReadJob, mem: Memory, t: Terms, chunk: nat, area: byte, db: u16,
                                          start: u16, n: u16, buffer: seq<byte>, offset: nat, chunks: nat)
    requires chunk > 0 && offset <= n <= |buffer| && ReaderInStep(job, mem, t, area, db)
    requires ReadSoFar(t.pdu, t.longest, chunk, mem, KeyOf(area, db), start, n, buffer[..offset])
    requires Counted(offset, n, chunk, chunks)
    ensures var end := ReadLoop(job, Link(mem, [], []), chunk, area, db, start, n, buffer, offset, chunks);
            var first := ByteItem(area, db, start, Min(n, chunk));
            && end.link == Link(mem, LeftBy(job, mem, first, offset > 0 || n == 0), [])
            && ReadsFlat(end, n, chunk, ReadVerdict(t.pdu, t.longest, chunk, mem, KeyOf(area, db), start, n))
    decreases n - offset
  {
    if offset == n {
      ReadDone(t.pdu, t.longest, chunk, mem, KeyOf(area, db), start, n, buffer[..n]);
    } else {
      var end, next := ReadTurnInStep(job, mem, t, chunk, area, db, start, n, buffer, offset, chunks);
      if end.1.Success? {
        CountChunk(offset, n, chunk, chunks);
        ReadLoopInStep(job, mem, t, chunk, area, db, start, n, next, offset + Min(n - offset, chunk), chunks + 1);
      }
    }
  }

  /** A whole read on a prompt link with nothing unread: what it reads, and what it leaves unread. */
  lemma ReadInStep(job: ReadJob, mem: Memory, t: Terms, chunk: nat, area: byte, db: u16, start: u16, n: u16,
                   buffer: seq<byte>)
    requires Reads(job, t) && chunk > 0 && n <= |buffer|
    ensures var end := ReadLoop(job, Link(mem, [], []), chunk, area, db, start, n, buffer, 0, 0);
            var first := ByteItem(area, db, start, Min(n, chunk));
            && ReadsFlat(end, n, chunk, ReadVerdict(t.pdu, t.longest, chunk, mem, KeyOf(area, db), start, n))
            && end.link == Link(mem, if end.r == Failure(IsoInvalidTelegram) then ReplyToRead(mem, first) else [], [])
  {
    ReaderIsInStep(job, mem, t, area, db);
    ReadLoopInStep(job, mem, t, chunk, area, db, start, n, buffer, 0, 0);
    if n > 0 {
      var first := ByteItem(area, db, start, Min(n, chunk));
      ReaderItemInStep(job, mem, t, first);
      FirstDecides(job(Link(mem, [], []), first), mem, t, chunk, area, db, start, n);
    }
  }

  lemma FirstDecides(end: JobEnd, mem: Memory, t: Terms, chunk: nat, area: byte, db: u16,
                     start: u16, n: u16)
    requires chunk > 0 && n > 0 && ReadItemInStep(end, mem, t, ByteItem(area, db, start, Min(n, chunk)))
    ensures end.0.unread
         == if ReadVerdict(t.pdu, t.longest, chunk, mem, KeyOf(area, db), start, n) == Failure(IsoInvalidTelegram)
            then ReplyToRead(mem, ByteItem(area, db, start, Min(n, chunk))) else []
  {
    ReadOutcome(mem, area, db, start, Min(n, chunk));
  }

  /** A whole read by a client: what it comes to, and when it works. */
  ghost predicate ReadWhole(end: ReadEnd, mem: Memory, t: Terms, chunk: nat, area: byte, db: u16, start: u16, n: u16)
    requires chunk > 0 && n <= |end.buffer|
  {
    var key, first := KeyOf(area, db), ByteItem(area, db, start, Min(n, chunk));
    && ReadsFlat(end, n, chunk, ReadVerdict(t.pdu, t.longest, chunk, mem, key, start, n))
    && end.link == Link(mem, if end.r == Failure(IsoInvalidTelegram) then ReplyToRead(mem, first) else [], [])
    && (n > 0 && chunk == WrappingSub(t.pdu, 18) && FlatRead(mem, key, start, n).Success? ==>
          && (end.r.Success? <==> ReadWorks(t.pdu, t.longest, n))
          && (end.r.Failure? ==> end.r == Failure(if t.longest < READ_REQ_LEN then Io else IsoInvalidTelegram)))
  }

  lemma WholeRead(job: ReadJob, mem: Memory, t: Terms, chunk: nat, area: byte, db: u16, start: u16, n: u16,
                  buffer: seq<byte>)
    requires Reads(job, t) && chunk > 0 && n <= |buffer|
    ensures ReadWhole(ReadLoop(job, Link(mem, [], []), chunk, area, db, start, n, buffer, 0, 0), mem, t, chunk, area,
                      db, start, n)
  {
    ReadInStep(job, mem, t, chunk, area, db, start, n, buffer);
    ReadExact(t.pdu, t.longest, mem, KeyOf(area, db), start, n);
  }

  // --------------------------------------------------------- write jobs in step

  /** What writing `chunk` by one job does in step; the reply is unread only if it is refused for its size. */
  ghost predicate WritesInStep(end: JobEnd, mem: Memory, t: Terms, key: Key, at: nat,
                               chunk: seq<byte>)
  {
    && end.0.faults == []
    && WritesChunk(Plain(end.1), mem, end.0.mem, key, at, chunk, t.pdu, t.longest)
    && end.0.unread == RefusedWrite(Plain(end.1), mem, key, at, |chunk|)
  }

  /** What a write job leaves unread in step. */
  function RefusedWrite(r: Result<(), S7Error>, mem: Memory, key: Key, at: nat, size: nat): seq<byte> {
    if r == Failure(IsoInvalidTelegram) then WriteReply(AccessCode(mem, key, at, size)) else []
  }

  ghost predicate WriterInStep(job: WriteJob, t: Terms, area: byte, db: u16) {
    forall mem: Memory, at: nat, chunk: seq<byte>
      {:trigger job(Link(mem, [], []), ByteItem(area, db, at, |chunk|), chunk)} ::
      at < 0x2_0000 && |chunk| <= 0xFFFF ==>
        WritesInStep(job(Link(mem, [], []), ByteItem(area, db, at, |chunk|), chunk), mem, t, KeyOf(area, db), at, chunk)
  }

  /** What any write job does in step, a bit included. */
  ghost predicate WriteItemInStep(end: JobEnd, mem: Memory, t: Terms, item: Item,
                                  payload: seq<byte>)
  {
    var out := Execute(mem, Write(item, payload));
    var taken := WRITE_REQ_LEN + |payload| <= t.longest && |payload| <= 0xFFFF - WRITE_REQ_LEN
                 && (item.wordlen == WL_BIT || |payload| < 8192);
    && end.0 == Link(if taken then out.mem else mem,
                     if taken && t.pdu < WRITE_RES_LEN then WriteReply(out.code) else [], [])
    && Plain(end.1) == if taken then ReplyVerdict(t.pdu, WRITE_RES_LEN, out.code) else Failure(Io)
  }

  lemma WriterItemInStep(job: WriteJob, mem: Memory, t: Terms, item: Item, payload: seq<byte>)
    requires Writes(job, t) && item.address < 0x100_0000 && |payload| <= 0xFFFF
    ensures WriteItemInStep(job(Link(mem, [], []), item, payload), mem, t, item, payload)
  {
    assert job(Link(mem, [], []), item, payload)
        == Transacted(Link(mem, [], []), t, WriteRequest(item, payload), WRITE_RES_LEN);
    WriteParsesOrNot(item, payload);
    WriteRequestInStep(mem, t, WriteRequest(item, payload), item, payload);
  }

  lemma WriteRequestInStep(mem: Memory, t: Terms, request: seq<byte>, item: Item, payload: seq<byte>)
    requires |request| == WRITE_REQ_LEN + |payload|
    requires Parse(request) == if |payload| <= 0xFFFF - WRITE_REQ_LEN && (item.wordlen == WL_BIT || |payload| < 8192)
                               then Some(Write(item, payload)) else None
    ensures WriteItemInStep(Transacted(Link(mem, [], []), t, request, WRITE_RES_LEN), mem, t, item, payload)
  {
    PromptInStep(mem, t, request, WRITE_RES_LEN);
    WriteItemFromInStep(Transacted(Link(mem, [], []), t, request, WRITE_RES_LEN), mem, t, request, item, payload);
  }

  lemma WriteItemFromInStep(end: JobEnd, mem: Memory, t: Terms, request: seq<byte>,
                            item: Item, payload: seq<byte>)
    requires |request| == WRITE_REQ_LEN + |payload|
    requires Parse(request) == if |payload| <= 0xFFFF - WRITE_REQ_LEN && (item.wordlen == WL_BIT || |payload| < 8192)
                               then Some(Write(item, payload)) else None
    requires InStep(end, mem, t, request, WRITE_RES_LEN)
    ensures WriteItemInStep(end, mem, t, item, payload)
  {
  }

  lemma ChunkFromItem(end: JobEnd, mem: Memory, t: Terms, area: byte, db: u16, at: nat,
                      chunk: seq<byte>)
    requires |chunk| <= 0xFFFF && WriteItemInStep(end, mem, t, ByteItem(area, db, at, |chunk|), chunk)
    ensures WritesInStep(end, mem, t, KeyOf(area, db), at, chunk)
  {
    WriteOutcome(mem, area, db, at, chunk);
  }

  lemma WriterIsInStep(job: WriteJob, t: Terms, area: byte, db: u16)
    requires Writes(job, t)
    ensures WriterInStep(job, t, area, db)
  {
    forall mem: Memory, at: nat, chunk: seq<byte> | at < 0x2_0000 && |chunk| <= 0xFFFF
      ensures WritesInStep(job(Link(mem, [], []), ByteItem(area, db, at, |chunk|), chunk), mem, t,
                           KeyOf(area, db), at, chunk)
    {
      WriterItemInStep(job, mem, t, ByteItem(area, db, at, |chunk|), chunk);
      ChunkFromItem(job(Link(mem, [], []), ByteItem(area, db, at, |chunk|), chunk), mem, t, area, db, at, chunk);
    }
  }

  // ------------------------------------------------------------ the write loop

  /** What the next turn of the loop makes of what was written so far. */
  lemma WriteTurn(end: JobEnd, mem: Memory, now: Memory, t: Terms, chunk: nat, key: Key,
                  start: u16, data: seq<byte>, offset: nat, chunks: nat)
    requires chunk > 0 && offset < |data| <= 0xFFFF
    requires WriteSoFar(mem, now, key, start, data, offset, t.pdu, t.longest, chunk, chunks)
    requires WritesInStep(end, now, t, key, start + offset, data[offset..offset + Min(|data| - offset, chunk)])
    ensures end.1.Failure? ==>
              && WriteVerdict(Plain(end.1), mem, end.0.mem, key, start, data, t.pdu, t.longest, chunk, chunks + 1)
              && end.0.unread == RefusedWrite(Plain(end.1), mem, key, start, Min(|data|, chunk))
    ensures end.1.Success? ==>
              && end.0 == Link(end.0.mem, [], [])
              && WriteSoFar(mem, end.0.mem, key, start, data, offset + Min(|data| - offset, chunk), t.pdu, t.longest,
                            chunk, chunks + 1)
  {
    if end.1.Failure? {
      assert offset == 0 ==> now == mem && chunks == 0;
      WriteEnds(Plain(end.1), mem, now, end.0.mem, key, start, data, offset, t.pdu, t.longest, chunk, chunks);
    } else {
      WriteStep(Plain(end.1), mem, now, end.0.mem, key, start, data, offset, t.pdu, t.longest, chunk, chunks);
    }
  }

  /** The whole call in step: the flat write up to the first chunk that fails; only a refused reply stays unread. */
  ghost predicate WrittenInStep(end: WriteEnd, mem: Memory, t: Terms, chunk: nat, key: Key, start: nat, data: seq<byte>)
    requires chunk > 0
  {
    && end.link.faults == []
    && WriteVerdict(end.r, mem, end.link.mem, key, start, data, t.pdu, t.longest, chunk, end.chunks)
    && end.link.unread == RefusedWrite(end.r, mem, key, start, Min(|data|, chunk))
  }

  /** One turn of the loop: it goes on with more written, or ends as the whole write does. */
  lemma WriteTurnInStep(job: WriteJob, mem: Memory, now: Memory, t: Terms, chunk: nat, area: byte, db: u16, start: u16,
                        data: seq<byte>, offset: nat, chunks: nat)
    returns (after: Link, r: Result<(), S7Error>)
    requires chunk > 0 && offset < |data| <= 0xFFFF && WriterInStep(job, t, area, db)
    requires WriteSoFar(mem, now, KeyOf(area, db), start, data, offset, t.pdu, t.longest, chunk, chunks)
    ensures var next := offset + Min(|data| - offset, chunk);
            && WriteLoop(job, Link(now, [], []), chunk, area, db, start, data, offset, chunks)
            == (if r.Failure? then WriteEnd(after, r, chunks + 1)
                else WriteLoop(job, after, chunk, area, db, start, data, next, chunks + 1))
            && (r.Success? ==>
                  && after == Link(after.mem, [], [])
                  && WriteSoFar(mem, after.mem, KeyOf(area, db), start, data, next, t.pdu, t.longest, chunk,
                                chunks + 1))
    ensures r.Failure? ==>
              WrittenInStep(WriteEnd(after, r, chunks + 1), mem, t, chunk, KeyOf(area, db), start, data)
  {
    var size := Min(|data| - offset, chunk);
    var part := data[offset..offset + size];
    var (end, reply) := job(Link(now, [], []), ByteItem(area, db, start + offset, |part|), part);
    after, r := end, Plain(reply);
    WriteLoopTurn(job, Link(now, [], []), chunk, area, db, start, data, offset, chunks, after, r);
    WriteTurn((end, reply), mem, now, t, chunk, KeyOf(area, db), start, data, offset, chunks);
  }

  /** On a prompt link with nothing unread the loop refines the flat write. */
  lemma {:induction false} WriteLoopInStep(job: WriteJob, mem: Memory, now: Memory, t: Terms, chunk: nat, area: byte,
                                           db: u16, start: u16, data: seq<byte>, offset: nat, chunks: nat)
    requires chunk > 0 && offset <= |data| <= 0xFFFF && WriterInStep(job, t, area, db)
    requires WriteSoFar(mem, now, KeyOf(area, db), start, data, offset, t.pdu, t.longest, chunk, chunks)
    ensures WrittenInStep(WriteLoop(job, Link(now, [], []), chunk, area, db, start, data, offset, chunks), mem, t,
                          chunk, KeyOf(area, db), start, data)
    decreases |data| - offset
  {
    if offset == |data| {
      WriteDone(mem, now, KeyOf(area, db), start, data, t.pdu, t.longest, chunk, chunks);
    } else {
      var after, r := WriteTurnInStep(job, mem, now, t, chunk, area, db, start, data, offset, chunks);
      if r.Success? {
        var next := offset + Min(|data| - offset, chunk);
        WriteLoopInStep(job, mem, after.mem, t, chunk, area, db, start, data, next, chunks + 1);
      }
    }
  }

  /** A whole write on a prompt link with nothing unread. */
  lemma WriteInStep(job: WriteJob, mem: Memory, t: Terms, chunk: nat, area: byte, db: u16, start: u16, data: seq<byte>)
    requires Writes(job, t) && chunk > 0 && |data| <= 0xFFFF
    ensures WrittenInStep(WriteLoop(job, Link(mem, [], []), chunk, area, db, start, data, 0, 0), mem, t, chunk,
                          KeyOf(area, db), start, data)
  {
    WriterIsInStep(job, t, area, db);
    WriteLoopInStep(job, mem, mem, t, chunk, area, db, start, data, 0, 0);
  }

  /** A whole write by a client: what it comes to, and when it works. */
  ghost predicate WriteWhole(end: WriteEnd, mem: Memory, t: Terms, chunk: nat, area: byte, db: u16, start: u16,
                             data: seq<byte>)
    requires chunk > 0
  {
    var key := KeyOf(area, db);
    && WrittenInStep(end, mem, t, chunk, key, start, data)
    && (data != [] && chunk == WrappingSub(t.pdu, 28) && FlatWrite(mem, key, start, data).Success? ==>
          && (end.r.Success? <==> WriteWorks(t.pdu, t.longest, |data|))
          && (end.r.Success? ==> Success(end.link.mem) == FlatWrite(mem, key, start, data))
          && (end.r.Failure? ==> end.r == Failure(if t.pdu < WRITE_RES_LEN && !Dropped(t.longest, Min(|data|, chunk))
                                                  then IsoInvalidTelegram else Io)))
  }

  lemma WholeWrite(job: WriteJob, mem: Memory, t: Terms, chunk: nat, area: byte, db: u16, start: u16, data: seq<byte>)
    requires Writes(job, t) && chunk > 0 && |data| <= 0xFFFF
    ensures WriteWhole(WriteLoop(job, Link(mem, [], []), chunk, area, db, start, data, 0, 0), mem, t, chunk, area, db,
                       start, data)
  {
    WriteInStep(job, mem, t, chunk, area, db, start, data);
    WholeFromStep(WriteLoop(job, Link(mem, [], []), chunk, area, db, start, data, 0, 0), mem, t, chunk, area, db,
                  start, data);
  }

  lemma WholeFromStep(end: WriteEnd, mem: Memory, t: Terms, chunk: nat, area: byte, db: u16, start: u16,
                      data: seq<byte>)
    requires chunk > 0 && WrittenInStep(end, mem, t, chunk, KeyOf(area, db), start, data)
    ensures WriteWhole(end, mem, t, chunk, area, db, start, data)
  {
    WriteExact(end.r, mem, end.link.mem, KeyOf(area, db), start, data, t.pdu, t.longest, chunk, end.chunks);
  }

  // ------------------------------------------------------- telegrams, byte by byte

  /** In front of the item: the length of the telegram at 2, that of what follows the item at 15, the job at 17. */
  lemma TelegramHead(total: nat, dataLen: nat, job: byte, item: Item)
    ensures JobBytes(total, dataLen, job, item)[..22]
         == [ 0x03, 0x00, (total / 256) % 256, total % 256, 0x02, 0xf0, 0x80, 0x32, 0x01, 0x00, 0x00, 0x05, 0x00, 0x00,
              0x0e, (dataLen / 256) % 256, dataLen % 256, job, 0x01, 0x12, 0x0a, 0x10 ]
    ensures JobBytes(total, dataLen, job, item)[22..] == ItemBytes(item)
  {
  }

  lemma HighByte(x: u16)
    ensures (x / 256) % 256 == x / 256 && (x / 0x1_0000) % 256 == 0
  {
    assert x / 0x1_0000 == 0;
  }

  /** The item of a job: word length, count, DB number, area and the 24 bits of the address. */
  lemma ItemIs(item: Item)
    ensures ItemBytes(item)[..6]
         == [item.wordlen, item.count / 256, item.count % 256, item.db / 256, item.db % 256, item.area]
    ensures ItemBytes(item)[6..]
         == [(item.address / 0x1_0000) % 256, (item.address / 256) % 256, item.address % 256]
  {
  }

  /** A job on bytes asks for `count` of them, at an address in bits. */
  lemma ByteItemIs(area: byte, db: u16, at: nat, count: u16)
    ensures ByteItem(area, db, at, count) == Item(0x02, count, db, area, 8 * at)
  {
  }

  /** A job on one bit asks for one element, at the address of the bit, which fits 16 bits. */
  lemma BitItemIs(area: byte, db: u16, bit: u16)
    ensures BitItem(area, db, bit) == Item(0x01, 1, db, area, bit)
    ensures ItemBytes(BitItem(area, db, bit))[6..] == [0x00, bit / 256, bit % 256]
  {
    ItemIs(BitItem(area, db, bit));
    HighByte(bit);
  }

  /** A read job is that head, of 31 bytes, with nothing behind the item. */
  lemma ReadTelegram(item: Item)
    ensures var t := ReadRequest(item);
            && t[..22] == [ 0x03, 0x00, 0x00, 0x1f, 0x02, 0xf0, 0x80, 0x32, 0x01, 0x00, 0x00, 0x05, 0x00, 0x00, 0x0e,
                            0x00, 0x00, 0x04, 0x01, 0x12, 0x0a, 0x10 ]
            && t[22..] == ItemBytes(item)
  {
    TelegramHead(31, 0, 0x04, item);
  }

  /** A write job starts the same, with its own lengths. */
  lemma WriteHead(item: Item, payload: seq<byte>)
    requires |payload| <= 0xFFFF - 35
    ensures var (t, n) := (WriteRequest(item, payload), |payload|);
            && t[..22] == [ 0x03, 0x00, (n + 35) / 256, (n + 35) % 256, 0x02, 0xf0, 0x80, 0x32, 0x01, 0x00, 0x00, 0x05,
                            0x00, 0x00, 0x0e, (n + 4) / 256, (n + 4) % 256, 0x05, 0x01, 0x12, 0x0a, 0x10 ]
            && t[22..31] == ItemBytes(item)
  {
    var t, n := WriteRequest(item, payload), |payload|;
    var head := JobBytes(35 + n, n + 4, 0x05, item);
    TelegramHead(35 + n, n + 4, 0x05, item);
    HighByte(n + 35);
    HighByte(n + 4);
    assert t[..22] == head[..22] && t[22..31] == head[22..];
  }

  /** Behind the item come the transport size, the length of the payload in bits, cut to 16, and the payload. */
  lemma WriteTail(item: Item, payload: seq<byte>)
    requires item.wordlen == 0x01 || item.wordlen == 0x02
    ensures var t := WriteRequest(item, payload);
            var bits := if item.wordlen == 0x01 then 1 else (8 * |payload|) % 0x1_0000;
            && t[31..35] == [0x00, if item.wordlen == 0x01 then 0x03 else 0x04, bits / 256, bits % 256]
            && t[35..] == payload
  {
    var bits: u16 := BitsPayload(item.wordlen, |payload|);
    var head := JobBytes(35 + |payload|, |payload| + 4, 0x05, item);
    HighByte(bits);
    assert WriteRequest(item, payload) == head + [0x00, Transport(item.wordlen), Hi(bits), Lo(bits)] + payload;
  }

  // --------------------------------------------------------------------- bits

  /** `byte_num * 8 + bit_idx` in u16. */
  function BitAddress(byteNum: u16, bitIdx: byte): u16 { (8 * byteNum + bitIdx) % 0x1_0000 }

  /** The 16-bit element address is that of the asked bit in byte `byteNum % 8192`, so the asked one below 8192. */
  lemma BitAddressWraps(byteNum: u16, bitIdx: byte)
    requires bitIdx <= 7
    ensures BitAddress(byteNum, bitIdx) == 8 * (byteNum % 8192) + bitIdx
    ensures BitAddress(byteNum, bitIdx) / 8 == byteNum <==> byteNum < 8192
  {
    var wrapped := byteNum / 8192;
    assert byteNum == 8192 * wrapped + byteNum % 8192;
    assert 8 * byteNum + bitIdx == 0x1_0000 * wrapped + (8 * (byteNum % 8192) + bitIdx);
  }

  function BitItem(area: byte, db: u16, bit: u16): Item { Item(WL_BIT, 1, db, area, bit) }

  /** What reading one bit gives in step, by the verdict on its byte. */
  ghost predicate ReadsBit(end: JobEnd, mem: Memory, t: Terms, area: byte, db: u16, bit: u16) {
    var key := KeyOf(area, db);
    && end.0 == Link(mem, if end.1 == Failure(IsoInvalidTelegram)
                          then ReplyToRead(mem, BitItem(area, db, bit)) else [], [])
    && match ReadVerdict(t.pdu, t.longest, 1, mem, key, bit / 8, 1)
       case Success(value) =>
         end.1.Success? && |end.1.value| == READ_RES_LEN + 1 && end.1.value[READ_RES_LEN] == BitOf(value[0], bit % 8)
       case Failure(error) => end.1 == Failure(error)
  }

  lemma ReadBitInStep(job: ReadJob, mem: Memory, t: Terms, area: byte, db: u16, bit: u16)
    requires Reads(job, t)
    ensures ReadsBit(job(Link(mem, [], []), BitItem(area, db, bit)), mem, t, area, db, bit)
  {
    ReaderItemInStep(job, mem, t, BitItem(area, db, bit));
    BitFromItem(job(Link(mem, [], []), BitItem(area, db, bit)), mem, t, area, db, bit);
  }

  lemma BitFromItem(end: JobEnd, mem: Memory, t: Terms, area: byte, db: u16, bit: u16)
    requires ReadItemInStep(end, mem, t, BitItem(area, db, bit))
    ensures ReadsBit(end, mem, t, area, db, bit)
  {
    var key, at := KeyOf(area, db), bit / 8;
    if AccessCode(mem, key, at, 1) == RES_SUCCESS {
      assert mem[key][at..at + 1] == [mem[key][at]];
      assert Execute(mem, Read(BitItem(area, db, bit))).payload == [BitOf(mem[key][at], bit % 8)];
    }
  }

  /** Exactly the addressed bit of memory changed, if it is there and the PLC takes the job at all. */
  ghost predicate WritesBit(r: Result<(), S7Error>, before: Memory, after: Link, t: Terms, key: Key, bit: nat,
                            v: bool) {
    var code := AccessCode(before, key, bit / 8, 1);
    && r == WriteJobVerdict(t.pdu, t.longest, code, 1)
    && after.faults == [] && after.unread == RefusedWrite(r, before, key, bit / 8, 1)
    && after.mem == if Dropped(t.longest, 1) || code != RES_SUCCESS then before
                    else before[key := Splice(before[key], bit / 8, [WithBit(before[key][bit / 8], bit % 8, v)])]
  }

  lemma WriteBitInStep(job: WriteJob, mem: Memory, t: Terms, area: byte, db: u16, bit: u16, b: byte)
    requires Writes(job, t)
    ensures var (after, r) := job(Link(mem, [], []), BitItem(area, db, bit), [b]);
            WritesBit(Plain(r), mem, after, t, KeyOf(area, db), bit, b != 0)
  {
    WriterItemInStep(job, mem, t, BitItem(area, db, bit), [b]);
    BitChunkFromItem(job(Link(mem, [], []), BitItem(area, db, bit), [b]), mem, t, area, db, bit, b);
  }

  lemma BitChunkFromItem(end: JobEnd, mem: Memory, t: Terms, area: byte, db: u16, bit: u16,
                         b: byte)
    requires WriteItemInStep(end, mem, t, BitItem(area, db, bit), [b])
    ensures WritesBit(Plain(end.1), mem, end.0, t, KeyOf(area, db), bit, b != 0)
  {
  }

  // ------------------------------------------------------- which PDUs work

  /** When a read of `n > 0` bytes that are there succeeds, whatever chunk length `pdu` gives. */
  predicate ReadWorks(pdu: u16, longest: nat, n: nat) {
    longest >= READ_REQ_LEN && pdu >= 19 && (pdu <= RESPONSE_ARRAY_LEN || n <= RESPONSE_ARRAY_LEN - READ_RES_LEN)
  }

  /** Exactly when chunked reading reads; otherwise the job is dropped or its first reply refused. */
  lemma ReadExact(pdu: u16, longest: nat, mem: Memory, key: Key, start: nat, n: nat)
    requires n <= 0xFFFF
    ensures var v := ReadVerdict(pdu, longest, WrappingSub(pdu, 18), mem, key, start, n);
            0 < n && pdu != 18 && FlatRead(mem, key, start, n).Success? ==>
            && (v.Success? <==> ReadWorks(pdu, longest, n))
            && (v.Failure? ==> v == Failure(if longest < READ_REQ_LEN then Io else IsoInvalidTelegram))
  {
  }

  /** When a write of `n > 0` bytes that are there succeeds. */
  predicate WriteWorks(pdu: u16, longest: nat, n: nat) {
    !Dropped(longest, Min(n, WrappingSub(pdu, 28))) && pdu >= WRITE_RES_LEN
  }

  /** Exactly when chunked writing writes. */
  lemma WriteExact(r: Result<(), S7Error>, before: Memory, after: Memory, key: Key, start: nat, data: seq<byte>,
                   pdu: u16, longest: nat, chunk: nat, chunks: nat)
    requires chunk > 0 && WriteVerdict(r, before, after, key, start, data, pdu, longest, chunk, chunks)
    ensures chunk == WrappingSub(pdu, 28) && data != [] && FlatWrite(before, key, start, data).Success? ==>
              && (r.Success? <==> WriteWorks(pdu, longest, |data|))
              && (r.Success? ==> Success(after) == FlatWrite(before, key, start, data))
              && (r.Failure? ==> r == Failure(if pdu < WRITE_RES_LEN && !Dropped(longest, Min(|data|, chunk))
                                              then IsoInvalidTelegram else Io))
  {
  }

  /** From PDU 29 on, a strict PLC takes every telegram of the write loop whose bit count is not cut, and no other. */
  lemma StrictPlcTakes(item: Item, payload: seq<byte>, pdu: u16)
    requires item.address < 0x100_0000 && item.wordlen == WL_BYTE
    requires pdu >= 29 && |payload| <= WrappingSub(pdu, 28)
    ensures Takes(pdu + TPKT_ISO_LEN, WriteRequest(item, payload)) <==> |payload| < 8192
  {
    WriteFitsPdu(item, payload, pdu);
    WriteParsesOrNot(item, payload);
  }

  /**
   Against a PLC that takes nothing longer than the PDU it negotiated: reads work exactly from 24 on, and
   above 480 only up to 462 bytes; writes work exactly from 29 on, and from 8220 on only below 8192 bytes.
   */
  lemma StrictPlc(pdu: u16, n: nat)
    requires 0 < n <= 0xFFFF && pdu > 0
    ensures ReadWorks(pdu, pdu + TPKT_ISO_LEN, n) <==> pdu >= 24 && (pdu <= 480 || n <= 462)
    ensures pdu != 28 ==> (WriteWorks(pdu, pdu + TPKT_ISO_LEN, n) <==> pdu >= 29 && (pdu < 8220 || n < 8192))
  {
  }

  // ----------------------------------------------------- in terms of the areas

  /** `buffer` holds the `n` bytes from `start` on of area `area`; DB numbers count in data blocks, 0x84, only. */
  ghost predicate HoldsArea(buffer: seq<byte>, mem: Memory, area: byte, db: u16, start: nat, n: nat) {
    var key := Key(area, if area == 0x84 then db else 0);
    && key in mem && start + n <= |mem[key]| && n <= |buffer|
    && forall i :: 0 <= i < n ==> buffer[i] == mem[key][start + i]
  }

  /** The error of touching `n` bytes that are not all there. */
  ghost predicate NotThere(r: Result<(), S7Error>, mem: Memory, area: byte, db: u16, start: nat, n: nat) {
    var key := Key(area, if area == 0x84 then db else 0);
    || (key !in mem && r == Failure(S7NotFound))
    || (key in mem && start + n > |mem[key]| && r == Failure(S7InvalidAddress))
  }

  /** `after` is `before` with `data` from `start` on in area `area`, and nothing else changed. */
  ghost predicate WrittenArea(before: Memory, after: Memory, area: byte, db: u16, start: nat, data: seq<byte>) {
    var key := Key(area, if area == 0x84 then db else 0);
    && key in before && key in after && |after[key]| == |before[key]| && start + |data| <= |before[key]|
    && (forall i :: 0 <= i < |before[key]| ==>
          after[key][i] == if start <= i < start + |data| then data[i - start] else before[key][i])
    && after - {key} == before - {key}
  }

  /** A PDU of 19 to 480 bytes reads any size, a longer one up to 462 bytes; 31 is the length of a read telegram. */
  predicate ReadFits(pdu: u16, longest: nat, n: nat) { longest >= 31 && pdu >= 19 && (pdu <= 480 || n <= 462) }

  /** 35 and 15 are the lengths of an empty write telegram and of its reply. */
  predicate WriteFits(pdu: u16, longest: nat, n: nat) {
    var chunk := Min(n, if pdu >= 28 then pdu - 28 else 0x1_0000 + pdu - 28);
    pdu >= 15 && 35 + chunk <= longest && chunk < 8192
  }

  lemma FitsIsWorks(pdu: u16, longest: nat, n: nat)
    ensures ReadFits(pdu, longest, n) <==> ReadWorks(pdu, longest, n)
    ensures WriteFits(pdu, longest, n) <==> WriteWorks(pdu, longest, n)
  {
  }

  /** Where a read of that size works, it reads the area asked for, or fails because that is not there. */
  lemma WholeReadIs(end: ReadEnd, mem: Memory, t: Terms, chunk: nat, area: byte, db: u16, start: u16, n: u16)
    requires n <= |end.buffer| && chunk > 0 && ReadWhole(end, mem, t, chunk, area, db, start, n)
    requires n > 0 && chunk == WrappingSub(t.pdu, 18) && ReadFits(t.pdu, t.longest, n)
    ensures if end.r.Success? then HoldsArea(end.buffer, mem, area, db, start, n)
            else NotThere(end.r, mem, area, db, start, n)
    ensures end.link == Link(mem, [], [])
  {
    var key := KeyOf(area, db);
    var verdict := ReadVerdict(t.pdu, t.longest, chunk, mem, key, start, n);
    if verdict.Success? {
      assert end.buffer[..n] == mem[key][start..start + n];
      forall i | 0 <= i < n ensures end.buffer[i] == mem[key][start + i] {
        assert end.buffer[..n][i] == end.buffer[i];
      }
    }
  }

  /** The same for a write, which leaves the memory of every other area as it was. */
  lemma WholeWriteIs(end: WriteEnd, mem: Memory, t: Terms, chunk: nat, area: byte, db: u16, start: u16, data: seq<byte>)
    requires chunk > 0 && WriteWhole(end, mem, t, chunk, area, db, start, data)
    requires data != [] && chunk == WrappingSub(t.pdu, 28) && WriteFits(t.pdu, t.longest, |data|)
    ensures if end.r.Success? then WrittenArea(mem, end.link.mem, area, db, start, data)
            else NotThere(end.r, mem, area, db, start, |data|)
    ensures end.link.unread == [] && end.link.faults == []
  {
    var key := KeyOf(area, db);
    assert WriteWorks(t.pdu, t.longest, |data|);
    if FlatWrite(mem, key, start, data).Success? {
      assert end.link.mem == mem[key := Splice(mem[key], start, data)];
      assert end.link.mem - {key} == mem - {key};
    }
  }

  lemma ReadAsAsked(job: ReadJob, mem: Memory, t: Terms, chunk: nat, area: byte, db: u16, start: u16, n: u16,
                    buffer: seq<byte>)
    requires Reads(job, t) && chunk > 0 && chunk == WrappingSub(t.pdu, 18) && n <= |buffer|
    ensures var end := ReadLoop(job, Link(mem, [], []), chunk, area, db, start, n, buffer, 0, 0);
            && ReadWhole(end, mem, t, chunk, area, db, start, n)
            && (n > 0 && ReadFits(t.pdu, t.longest, n) ==>
                  && end.link == Link(mem, [], [])
                  && if end.r.Success? then HoldsArea(end.buffer, mem, area, db, start, n)
                     else NotThere(end.r, mem, area, db, start, n))
  {
    WholeRead(job, mem, t, chunk, area, db, start, n, buffer);
    if n > 0 && ReadFits(t.pdu, t.longest, n) {
      WholeReadIs(ReadLoop(job, Link(mem, [], []), chunk, area, db, start, n, buffer, 0, 0), mem, t, chunk, area, db,
                  start, n);
    }
  }

  lemma WriteAsAsked(job: WriteJob, mem: Memory, t: Terms, chunk: nat, area: byte, db: u16, start: u16, data: seq<byte>)
    requires Writes(job, t) && chunk > 0 && chunk == WrappingSub(t.pdu, 28) && |data| <= 0xFFFF
    ensures var end := WriteLoop(job, Link(mem, [], []), chunk, area, db, start, data, 0, 0);
            && WriteWhole(end, mem, t, chunk, area, db, start, data)
            && (data != [] && WriteFits(t.pdu, t.longest, |data|) ==>
                  && end.link.unread == [] && end.link.faults == []
                  && if end.r.Success? then WrittenArea(mem, end.link.mem, area, db, start, data)
                     else NotThere(end.r, mem, area, db, start, |data|))
  {
    WholeWrite(job, mem, t, chunk, area, db, start, data);
    if data != [] && WriteFits(t.pdu, t.longest, |data|) {
      WholeWriteIs(WriteLoop(job, Link(mem, [], []), chunk, area, db, start, data, 0, 0), mem, t, chunk, area, db,
                   start, data);
    }
  }
}
