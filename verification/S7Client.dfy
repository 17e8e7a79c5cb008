/**
 `S7Client` of crates/plugin-s7/src/s7/client.rs on a TCP connection to a PLC. Each call equals its
 function of `S7Transfer` on any link and with any bytes left unread by earlier calls; on a prompt link
 with nothing unread it is the flat copy.
 */
module S7Client {
  import opened Common
  import opened S7Telegram
  import opened S7Link
  import opened S7Transfer
  import opened S7Calls
  import opened S7Sequence

  class Client {
    const plc: Plc
    var connected: bool
    var pduLength: u16
    var maxRdPduData: u16
    var maxWrPduData: u16
    var chunks: nat
    /** How a read and a write job go on the connection. */
    ghost var reader: ReadJob
    ghost var writer: WriteJob

    ghost predicate Valid()
      reads this`connected, this`pduLength, this`maxRdPduData, this`maxWrPduData, this`reader, this`writer
    {
      connected ==>
        && pduLength > 0 && maxRdPduData == WrappingSub(pduLength, 18) && maxWrPduData == WrappingSub(pduLength, 28)
        && Reads(reader, Agreed()) && Writes(writer, Agreed())
    }

    constructor (plc: Plc)
      ensures this.plc == plc && !connected && Valid()
    {
      this.plc := plc;
      connected, pduLength, maxRdPduData, maxWrPduData, chunks := false, 0, 0, 0, 0;
      reader, writer := Reader(Terms(0, plc.longest)), Writer(Terms(0, plc.longest));
    }

    /** The end of `connect_tsap`, on a new stream: takes over the PDU length the PLC answered. */
    method Negotiated(pdu: u16) returns (r: Result<(), S7Error>)
      modifies this, plc`unread, plc`inTime
      ensures Valid()
      ensures plc.State() == old(plc.State()).(unread := [])
      ensures r.Failure? <==> pdu == 0
      ensures r.Failure? ==> r == Failure(PduNegotiationFailed)
      ensures r.Success? ==>
                && connected && pduLength == pdu
                && maxRdPduData == (if pdu >= 18 then pdu - 18 else 0x1_0000 + pdu - 18)
                && maxWrPduData == (if pdu >= 28 then pdu - 28 else 0x1_0000 + pdu - 28)
      ensures r.Success? ==> (maxRdPduData > 0 && maxWrPduData > 0 <==> pdu != 18 && pdu != 28)
      ensures r.Failure? ==> !connected
    {
      plc.Connect();
      connected := false;
      pduLength := pdu;
      if pduLength == 0 {
        return Failure(PduNegotiationFailed);
      }
      maxRdPduData := WrappingSub(pduLength, 18);
      maxWrPduData := WrappingSub(pduLength, 28);
      reader, writer := Reader(Agreed()), Writer(Agreed());
      connected := true;
      return Success(());
    }

    function Agreed(): Terms
      reads this`pduLength
    {
      Terms(pduLength, plc.longest)
    }

    /** A connected client calls a known area over a prompt link on which nothing is unread. */
    ghost predicate CleanCall(l: Link, area: byte)
      reads this
    {
      l.faults == [] && l.unread == [] && 0x81 <= area <= 0x84 && connected
    }

    /** Parameter and connection checks shared by reads and writes, in the order of the source. */
    method CheckCall(area: byte, wordlen: byte) returns (r: Result<(), S7Error>)
      ensures r == if !(0x81 <= area <= 0x84) then Failure(InvalidFunParameter)
                   else if wordlen != 0x01 && wordlen != 0x02 then Failure(InvalidFunParameter)
                   else if !connected then Failure(NotConnected)
                   else Success(())
    {
      if area !in {AREA_PE, AREA_PA, AREA_MK, AREA_DB} {
        return Failure(InvalidFunParameter);
      }
      if wordlen != WL_BIT && wordlen != WL_BYTE {
        return Failure(InvalidFunParameter);
      }
      if !connected {
        return Failure(NotConnected);
      }
      return Success(());
    }

    /** Sends one request and receives a reply, as every job does. */
    method Transact(request: seq<byte>, minSize: nat) returns (r: Result<seq<byte>, S7Error>)
      requires minSize > RW_RES_OFFSET
      modifies plc
      ensures (plc.State(), r) == Transacted(old(plc.State()), Agreed(), request, minSize)
    {
      var sent := plc.Send(request);
      if !sent {
        return Failure(Io);
      }
      r := ReceiveReply(minSize);
    }

    /** The receiving half: the header, then as many bytes as it says. */
    method ReceiveReply(minSize: nat) returns (r: Result<seq<byte>, S7Error>)
      requires minSize > RW_RES_OFFSET && plc.inTime <= |plc.unread|
      modifies plc`unread, plc`inTime
      ensures Received(r, plc.unread) == Receive(pduLength, minSize, old(plc.unread), old(plc.inTime))
    {
      ghost var stream := plc.unread;
      var header := plc.ReadExact(TPKT_ISO_LEN);
      if header.Failure? {
        return Failure(Io);
      }
      var size := CheckIsoPacket(pduLength, header.value);
      if size.Failure? {
        return Failure(size.error);
      }
      if size.value < minSize || size.value > RESPONSE_ARRAY_LEN {
        return Failure(IsoInvalidTelegram);
      }
      ghost var rest := plc.inTime;
      var s7 := plc.ReadExact(size.value);
      ghost var n := Min(size.value, rest);
      assert stream[TPKT_ISO_LEN..][..n] == stream[TPKT_ISO_LEN..TPKT_ISO_LEN + n];
      assert stream[TPKT_ISO_LEN..][n..] == stream[TPKT_ISO_LEN + n..];
      if s7.Failure? {
        return Failure(Io);
      }
      if s7.value[RW_RES_OFFSET] != RES_SUCCESS {
        return Failure(CodeError(s7.value[RW_RES_OFFSET]));
      }
      return s7;
    }

    /** One read job: copies the payload that came back, however short, to `offset`. */
    method ReadChunk(item: Item, buffer: array<byte>, offset: nat) returns (r: Result<(), S7Error>)
      requires Valid() && connected && offset + item.count <= buffer.Length
      modifies plc, buffer
      ensures var (after, reply) := reader(old(plc.State()), item);
              && plc.State() == after && r == Plain(reply)
              && buffer[..] == Filled(reply, item.count, old(buffer[..]), offset)
    {
      var reply := Transact(ReadRequest(item), READ_RES_LEN);
      if reply.Failure? {
        return Failure(reply.error);
      }
      var payload := reply.value[READ_RES_LEN..READ_RES_LEN + Min(|reply.value| - READ_RES_LEN, item.count)];
      CopyPayload(payload, buffer, offset);
      return Success(());
    }

    /** `copy_from_slice` into the buffer. */
    method CopyPayload(payload: seq<byte>, buffer: array<byte>, offset: nat)
      requires offset + |payload| <= buffer.Length
      modifies buffer
      ensures buffer[..] == Splice(old(buffer[..]), offset, payload)
    {
      forall k | 0 <= k < |payload| {
        buffer[offset + k] := payload[k];
      }
    }

    /** Reads min(|buffer|, 65535) bytes, or one bit, from `start` on into `buffer`. */
    method ReadArea(area: byte, db: u16, start: u16, wordlen: byte, buffer: array<byte>)
      returns (r: Result<(), S7Error>)
      requires Valid() && (connected ==> maxRdPduData > 0)
      requires wordlen == 0x01 ==> buffer.Length > 0
      modifies this`chunks, plc, buffer
      ensures !(0x81 <= area <= 0x84 && (wordlen == 0x01 || wordlen == 0x02)) ==> r == Failure(InvalidFunParameter)
      ensures 0x81 <= area <= 0x84 && (wordlen == 0x01 || wordlen == 0x02) && !connected ==> r == Failure(NotConnected)
      ensures !(0x81 <= area <= 0x84 && (wordlen == 0x01 || wordlen == 0x02) && connected) ==>
                chunks == 0 && plc.State() == old(plc.State()) && buffer[..] == old(buffer[..])
      ensures 0x81 <= area <= 0x84 && wordlen == 0x02 && connected ==>
                ReadEnd(plc.State(), r, buffer[..], chunks)
                == ReadLoop(reader, old(plc.State()), maxRdPduData, area, db, start, Min(buffer.Length, 0xFFFF),
                            old(buffer[..]), 0, 0)
      ensures 0x81 <= area <= 0x84 && wordlen == 0x01 && connected ==>
                var (after, reply) := reader(old(plc.State()), BitItem(area, db, start));
                && plc.State() == after && r == Plain(reply)
                && buffer[..] == Filled(reply, 1, old(buffer[..]), 0)
      ensures forall i :: 0xFFFF <= i < buffer.Length ==> buffer[i] == old(buffer[i])
      ensures CleanCall(old(plc.State()), area) && wordlen == 0x02 ==>
                ReadWhole(ReadEnd(plc.State(), r, buffer[..], chunks), old(plc.mem), Agreed(), maxRdPduData, area, db,
                          start, Min(buffer.Length, 0xFFFF))
      ensures var n := Min(buffer.Length, 0xFFFF);
              CleanCall(old(plc.State()), area) && wordlen == 0x02 && n > 0 && ReadFits(pduLength, plc.longest, n) ==>
                && plc.State() == old(plc.State())
                && if r.Success? then HoldsArea(buffer[..], plc.mem, area, db, start, n)
                   else NotThere(r, plc.mem, area, db, start, n)
      ensures CleanCall(old(plc.State()), area) && wordlen == 0x01 ==>
                && plc.State() == Link(old(plc.mem), if r == Failure(IsoInvalidTelegram)
                                                     then ReplyToRead(plc.mem, BitItem(area, db, start)) else [], [])
                && ReadsBitAs(r, buffer[0], BitVerdict(area, db, start / 8), start % 8)
    {
      chunks := 0;
      var check := CheckCall(area, wordlen);
      if check.Failure? {
        return Failure(check.error);
      }
      if wordlen == WL_BIT {
        // One element: the loop body runs once.
        chunks := chunks + 1;
        r := ReadElement(area, db, start, buffer);
      } else {
        r := ReadBytes(area, db, start, buffer, Min(buffer.Length, 0xFFFF));
      }
    }

    /** The loop body of `ReadArea` for its only element, a bit. */
    method ReadElement(area: byte, db: u16, start: u16, buffer: array<byte>)
      returns (r: Result<(), S7Error>)
      requires Valid() && connected && buffer.Length > 0
      modifies plc, buffer
      ensures var (after, reply) := reader(old(plc.State()), BitItem(area, db, start));
              plc.State() == after && r == Plain(reply) && buffer[..] == Filled(reply, 1, old(buffer[..]), 0)
      ensures old(plc.faults) == [] && old(plc.unread) == [] ==>
                && plc.State() == Link(old(plc.mem), if r == Failure(IsoInvalidTelegram)
                                                     then ReplyToRead(plc.mem, BitItem(area, db, start)) else [], [])
                && ReadsBitAs(r, buffer[0], BitVerdict(area, db, start / 8), start % 8)
    {
      ReadBitInStep(reader, plc.mem, Agreed(), area, db, start);
      r := ReadChunk(BitItem(area, db, start), buffer, 0);
    }

    /** What reading the byte around a bit gives. */
    ghost function BitVerdict(area: byte, db: u16, at: nat): (v: Result<seq<byte>, S7Error>)
      reads this, plc
      ensures v.Success? ==> |v.value| == 1
    {
      ReadVerdict(pduLength, plc.longest, 1, plc.mem, KeyOf(area, db), at, 1)
    }

    /** The call returned bit `i` of the byte a flat read returns. */
    ghost predicate ReadsBitAs(r: Result<(), S7Error>, data: byte, flat: Result<seq<byte>, S7Error>, i: nat)
      requires flat.Success? ==> |flat.value| == 1
    {
      match flat
      case Success(value) => r.Success? && data == BitOf(value[0], i)
      case Failure(error) => r == Failure(error)
    }

    /** One turn of the loop below. */
    method ReadNext(area: byte, db: u16, start: u16, datasize: u16, offset: u16, buffer: array<byte>)
      returns (r: Result<(), S7Error>)
      requires Valid() && connected && maxRdPduData > 0 && offset < datasize <= buffer.Length
      modifies this`chunks, plc, buffer
      ensures ReadLoop(reader, old(plc.State()), maxRdPduData, area, db, start, datasize, old(buffer[..]), offset,
                       old(chunks))
           == if r.Failure? then ReadEnd(plc.State(), r, buffer[..], chunks)
              else ReadLoop(reader, plc.State(), maxRdPduData, area, db, start, datasize, buffer[..],
                            offset + Min(datasize - offset, maxRdPduData), chunks)
    {
      chunks := chunks + 1;
      var chunkSize: u16 := Min(datasize - offset, maxRdPduData);
      r := ReadChunk(ByteItem(area, db, start + offset, chunkSize), buffer, offset);
      ReadLoopTurn(reader, old(plc.State()), maxRdPduData, area, db, start, datasize, old(buffer[..]), offset,
                   old(chunks), plc.State(), r, buffer[..]);
    }

    /** The chunk loop of `ReadArea` over `datasize` bytes. */
    method ReadBytes(area: byte, db: u16, start: u16, buffer: array<byte>, datasize: u16)
      returns (r: Result<(), S7Error>)
      requires Valid() && connected && maxRdPduData > 0 && datasize <= buffer.Length && chunks == 0
      modifies this`chunks, plc, buffer
      ensures ReadEnd(plc.State(), r, buffer[..], chunks)
           == ReadLoop(reader, old(plc.State()), maxRdPduData, area, db, start, datasize, old(buffer[..]), 0, 0)
      ensures old(plc.faults) == [] && old(plc.unread) == [] ==>
                ReadWhole(ReadEnd(plc.State(), r, buffer[..], chunks), old(plc.mem), Agreed(), maxRdPduData, area, db,
                          start, datasize)
      ensures old(plc.faults) == [] && old(plc.unread) == [] && datasize > 0
              && ReadFits(pduLength, plc.longest, datasize) ==>
                && plc.State() == old(plc.State())
                && if r.Success? then HoldsArea(buffer[..], plc.mem, area, db, start, datasize)
                   else NotThere(r, plc.mem, area, db, start, datasize)
      ensures forall i :: datasize <= i < buffer.Length ==> buffer[i] == old(buffer[i])
    {
      ReadAsAsked(reader, plc.mem, Agreed(), maxRdPduData, area, db, start, datasize, buffer[..]);
      ReadLoopFrame(reader, plc.State(), maxRdPduData, area, db, start, datasize, buffer[..]);
      var offset: u16 := 0;
      while offset < datasize
        invariant 0 <= offset <= datasize
        invariant ReadLoop(reader, plc.State(), maxRdPduData, area, db, start, datasize, buffer[..], offset, chunks)
               == ReadLoop(reader, old(plc.State()), maxRdPduData, area, db, start, datasize, old(buffer[..]), 0, 0)
      {
        r := ReadNext(area, db, start, datasize, offset, buffer);
        if r.Failure? {
          return;
        }
        offset := offset + Min(datasize - offset, maxRdPduData);
      }
      return Success(());
    }

    /** One write job. */
    method WriteChunk(item: Item, payload: seq<byte>) returns (r: Result<(), S7Error>)
      requires Valid() && connected
      modifies plc
      ensures var (after, reply) := writer(old(plc.State()), item, payload);
              plc.State() == after && r == Plain(reply)
    {
      var reply := Transact(WriteRequest(item, payload), WRITE_RES_LEN);
      if reply.Failure? {
        return Failure(reply.error);
      }
      return Success(());
    }

    /** Writes min(|buffer|, 65535) bytes, or one bit, of `buffer` from `start` on. */
    method WriteArea(area: byte, db: u16, start: u16, wordlen: byte, buffer: seq<byte>)
      returns (r: Result<(), S7Error>)
      requires Valid() && (connected ==> maxWrPduData > 0)
      requires wordlen == 0x01 ==> |buffer| > 0
      modifies this`chunks, plc
      ensures !(0x81 <= area <= 0x84 && (wordlen == 0x01 || wordlen == 0x02)) ==> r == Failure(InvalidFunParameter)
      ensures 0x81 <= area <= 0x84 && (wordlen == 0x01 || wordlen == 0x02) && !connected ==> r == Failure(NotConnected)
      ensures !(0x81 <= area <= 0x84 && (wordlen == 0x01 || wordlen == 0x02) && connected) ==>
                chunks == 0 && plc.State() == old(plc.State())
      ensures 0x81 <= area <= 0x84 && wordlen == 0x02 && connected ==>
                WriteEnd(plc.State(), r, chunks)
                == WriteLoop(writer, old(plc.State()), maxWrPduData, area, db, start,
                             buffer[..Min(|buffer|, 0xFFFF)], 0, 0)
      ensures 0x81 <= area <= 0x84 && wordlen == 0x01 && connected ==>
                var (after, reply) := writer(old(plc.State()), BitItem(area, db, start), buffer[..1]);
                plc.State() == after && r == Plain(reply)
      ensures CleanCall(old(plc.State()), area) && wordlen == 0x02 ==>
                WriteWhole(WriteEnd(plc.State(), r, chunks), old(plc.mem), Agreed(), maxWrPduData, area, db, start,
                           buffer[..Min(|buffer|, 0xFFFF)])
      ensures var data := buffer[..Min(|buffer|, 0xFFFF)];
              CleanCall(old(plc.State()), area) && wordlen == 0x02 && data != []
              && WriteFits(pduLength, plc.longest, |data|) ==>
                && plc.faults == [] && plc.unread == []
                && if r.Success? then WrittenArea(old(plc.mem), plc.mem, area, db, start, data)
                   else NotThere(r, old(plc.mem), area, db, start, |data|)
      ensures CleanCall(old(plc.State()), area) && wordlen == 0x01 ==>
                WritesBit(r, old(plc.mem), plc.State(), Agreed(), KeyOf(area, db), start, buffer[0] != 0)
    {
      chunks := 0;
      var check := CheckCall(area, wordlen);
      if check.Failure? {
        return Failure(check.error);
      }
      if wordlen == WL_BIT {
        // One element: the loop body runs once.
        chunks := chunks + 1;
        r := WriteElement(area, db, start, buffer[0]);
        assert buffer[..1] == [buffer[0]];
      } else {
        r := WriteBytes(area, db, start, buffer[..Min(|buffer|, 0xFFFF)]);
      }
    }

    /** The loop body of `WriteArea` for its only element, a bit. */
    method WriteElement(area: byte, db: u16, start: u16, b: byte) returns (r: Result<(), S7Error>)
      requires Valid() && connected
      modifies plc
      ensures var (after, reply) := writer(old(plc.State()), BitItem(area, db, start), [b]);
              plc.State() == after && r == Plain(reply)
      ensures old(plc.faults) == [] && old(plc.unread) == [] ==>
                WritesBit(r, old(plc.mem), plc.State(), Agreed(), KeyOf(area, db), start, b != 0)
    {
      WriteBitInStep(writer, plc.mem, Agreed(), area, db, start, b);
      r := WriteChunk(BitItem(area, db, start), [b]);
    }

    /** One turn of the loop below. */
    method WriteNext(area: byte, db: u16, start: u16, data: seq<byte>, offset: nat) returns (r: Result<(), S7Error>)
      requires Valid() && connected && maxWrPduData > 0 && offset < |data| <= 0xFFFF
      modifies this`chunks, plc
      ensures WriteLoop(writer, old(plc.State()), maxWrPduData, area, db, start, data, offset, old(chunks))
           == if r.Failure? then WriteEnd(plc.State(), r, chunks)
              else WriteLoop(writer, plc.State(), maxWrPduData, area, db, start, data,
                             offset + Min(|data| - offset, maxWrPduData), chunks)
    {
      chunks := chunks + 1;
      var chunkSize := Min(|data| - offset, maxWrPduData);
      r := WriteChunk(ByteItem(area, db, start + offset, chunkSize), data[offset..offset + chunkSize]);
      WriteLoopTurn(writer, old(plc.State()), maxWrPduData, area, db, start, data, offset, old(chunks),
                    plc.State(), r);
    }

    /** The chunk loop of `WriteArea` over the bytes of `data`. */
    method WriteBytes(area: byte, db: u16, start: u16, data: seq<byte>) returns (r: Result<(), S7Error>)
      requires Valid() && connected && maxWrPduData > 0 && |data| <= 0xFFFF && chunks == 0
      modifies this`chunks, plc
      ensures WriteEnd(plc.State(), r, chunks)
           == WriteLoop(writer, old(plc.State()), maxWrPduData, area, db, start, data, 0, 0)
      ensures old(plc.faults) == [] && old(plc.unread) == [] ==>
                WriteWhole(WriteEnd(plc.State(), r, chunks), old(plc.mem), Agreed(), maxWrPduData, area, db, start,
                           data)
      ensures old(plc.faults) == [] && old(plc.unread) == [] && data != []
              && WriteFits(pduLength, plc.longest, |data|) ==>
                && plc.faults == [] && plc.unread == []
                && if r.Success? then WrittenArea(old(plc.mem), plc.mem, area, db, start, data)
                   else NotThere(r, old(plc.mem), area, db, start, |data|)
    {
      WriteAsAsked(writer, plc.mem, Agreed(), maxWrPduData, area, db, start, data);
      var offset := 0;
      while offset < |data|
        invariant 0 <= offset <= |data|
        invariant WriteLoop(writer, plc.State(), maxWrPduData, area, db, start, data, offset, chunks)
               == WriteLoop(writer, old(plc.State()), maxWrPduData, area, db, start, data, 0, 0)
      {
        r := WriteNext(area, db, start, data, offset);
        if r.Failure? {
          return;
        }
        offset := offset + Min(|data| - offset, maxWrPduData);
      }
      return Success(());
    }

    /** Reads bit `bitIdx` of byte `byteNum % 8192`: the element address is computed in 16 bits. */
    method ReadBit(area: byte, db: u16, byteNum: u16, bitIdx: byte) returns (r: Result<bool, S7Error>)
      requires Valid() && (connected ==> maxRdPduData > 0)
      modifies this`chunks, plc
      ensures bitIdx > 7 || !(0x81 <= area <= 0x84) ==> r == Failure(InvalidFunParameter)
      ensures bitIdx <= 7 && 0x81 <= area <= 0x84 && !connected ==> r == Failure(NotConnected)
      ensures !(bitIdx <= 7 && 0x81 <= area <= 0x84 && connected) ==> plc.State() == old(plc.State())
      ensures bitIdx <= 7 && 0x81 <= area <= 0x84 && connected ==>
                var (after, reply) := reader(old(plc.State()), BitItem(area, db, BitAddress(byteNum, bitIdx)));
                && plc.State() == after
                && match reply
                   case Success(s7) => r == Success(|s7| > 18 && s7[18] != 0)
                   case Failure(error) => r == Failure(error)
      ensures CleanCall(old(plc.State()), area) && bitIdx <= 7 ==>
                && plc.faults == [] && plc.mem == old(plc.mem)
                && (plc.unread == [] <==> r != Failure(IsoInvalidTelegram))
                && match BitVerdict(area, db, byteNum % 8192)
                   case Success(value) => r == Success(BitOf(value[0], bitIdx) != 0)
                   case Failure(error) => r == Failure(error)
    {
      if bitIdx > 7 {
        return Failure(InvalidFunParameter);
      }
      var start := BitAddress(byteNum, bitIdx);
      BitAddressWraps(byteNum, bitIdx);
      var buffer := new byte[1](_ => 0);
      assert buffer[..] == [0];
      var read := ReadArea(area, db, start, WL_BIT, buffer);
      if read.Failure? {
        return Failure(read.error);
      }
      return Success(buffer[0] != 0);
    }

    /** Writes bit `bitIdx` of byte `byteNum % 8192`, and no other. */
    method WriteBit(area: byte, db: u16, byteNum: u16, bitIdx: byte, value: bool) returns (r: Result<(), S7Error>)
      requires Valid() && (connected ==> maxWrPduData > 0)
      modifies this`chunks, plc
      ensures bitIdx > 7 || !(0x81 <= area <= 0x84) ==> r == Failure(InvalidFunParameter)
      ensures bitIdx <= 7 && 0x81 <= area <= 0x84 && !connected ==> r == Failure(NotConnected)
      ensures !(bitIdx <= 7 && 0x81 <= area <= 0x84 && connected) ==> plc.State() == old(plc.State())
      ensures bitIdx <= 7 && 0x81 <= area <= 0x84 && connected ==>
                var (after, reply) := writer(old(plc.State()), BitItem(area, db, BitAddress(byteNum, bitIdx)),
                                                       [if value then 1 else 0]);
                plc.State() == after && r == Plain(reply)
      ensures CleanCall(old(plc.State()), area) && bitIdx <= 7 ==>
                WritesBit(r, old(plc.mem), plc.State(), Agreed(), KeyOf(area, db), 8 * (byteNum % 8192) + bitIdx, value)
    {
      if bitIdx > 7 {
        return Failure(InvalidFunParameter);
      }
      var start := BitAddress(byteNum, bitIdx);
      BitAddressWraps(byteNum, bitIdx);
      var data: seq<byte> := [if value then 1 else 0];
      assert data[..1] == data;
      r := WriteArea(area, db, start, WL_BIT, data);
    }
  }

  /** One of the client's calls by its method. */
  method Perform(client: Client, c: Call) returns (r: Result<seq<byte>, S7Error>)
    requires client.Valid() && client.connected && client.maxRdPduData > 0 && client.maxWrPduData > 0
    modifies client`chunks, client.plc
    ensures (client.plc.State(), r) == MadeBy(client.reader, client.writer, old(client.plc.State()), client.Agreed(), c)
  {
    match c {
      case ReadBytes(area, db, start, n) =>
        var buffer := new byte[n](_ => 0);
        assert buffer[..] == Zeros(n);
        var done := client.ReadArea(area, db, start, WL_BYTE, buffer);
        r := Returned(done, buffer[..]);
      case WriteBytes(area, db, start, data) =>
        var done := client.WriteArea(area, db, start, WL_BYTE, data);
        r := Returned(done, []);
      case ReadBit(area, db, byteNum, bitIdx) =>
        var bit := client.ReadBit(area, db, byteNum, bitIdx);
        r := if bit.Failure? then Failure(bit.error) else Success([if bit.value then 1 else 0]);
      case WriteBit(area, db, byteNum, bitIdx, value) =>
        var done := client.WriteBit(area, db, byteNum, bitIdx, value);
        r := Returned(done, []);
    }
  }

  /**
   A write read back, on a prompt link with nothing unread: for every area, start and PDU length with positive
   chunks the data comes back exactly if a write and a read of that size work, and then exactly the target range
   has changed; if the target is not there, memory is as the failed write left it.
   */
  method WriteThenRead(client: Client, area: byte, db: u16, start: u16, data: seq<byte>)
    returns (r: Result<seq<byte>, S7Error>)
    requires client.Valid() && client.CleanCall(client.plc.State(), area) && |data| <= 0xFFFF
    requires client.maxRdPduData > 0 && client.maxWrPduData > 0
    modifies client`chunks, client.plc
    ensures client.plc.faults == [] && (client.plc.unread == [] <==> r != Failure(IsoInvalidTelegram))
    ensures var (pdu, longest, key) := (client.pduLength, client.plc.longest, KeyOf(area, db));
            match FlatWrite(old(client.plc.mem), key, start, data)
            case Success(mem) =>
              && (r == Success(data) <==>
                    data == [] || (WriteWorks(pdu, longest, |data|) && ReadWorks(pdu, longest, |data|)))
              && (r.Success? ==> r == Success(data))
              && (data == [] || WriteWorks(pdu, longest, |data|) ==> client.plc.mem == mem)
            case Failure(error) =>
              && r.Failure?
              && WriteVerdict(Failure(r.error), old(client.plc.mem), client.plc.mem, key, start, data, pdu, longest,
                              client.maxWrPduData, client.chunks)
  {
    ghost var mem := client.plc.mem;
    ghost var key := KeyOf(area, db);
    var written := client.WriteArea(area, db, start, WL_BYTE, data);
    assert data[..Min(|data|, 0xFFFF)] == data;
    if written.Failure? {
      return Failure(written.error);
    }
    ReadAfterWrite(mem, key, start, data);
    var buffer := new byte[|data|](_ => 0);
    var read := client.ReadArea(area, db, start, WL_BYTE, buffer);
    assert buffer[..Min(buffer.Length, 0xFFFF)] == buffer[..];
    r := Returned(read, buffer[..]);
  }

  /** A batch of calls on one connection: the plugin goes on after a call that failed. */
  method PerformAll(client: Client, calls: seq<Call>, ghost call: Caller)
    returns (results: seq<Result<seq<byte>, S7Error>>)
    requires client.Valid() && client.connected && client.maxRdPduData > 0 && client.maxWrPduData > 0
    requires Calls(call, client.Agreed())
    modifies client`chunks, client.plc
    ensures client.plc.State() == LinkAt(call, old(client.plc.State()), calls, |calls|)
    ensures |results| == |calls|
    ensures forall k :: 0 <= k < |calls| ==> results[k] == ResultAt(call, old(client.plc.State()), calls, k)
  {
    results := [];
    while |results| < |calls|
      invariant |results| <= |calls|
      invariant client.plc.State() == LinkAt(call, old(client.plc.State()), calls, |results|)
      invariant forall k :: 0 <= k < |results| ==> results[k] == ResultAt(call, old(client.plc.State()), calls, k)
    {
      ghost var before := client.plc.State();
      var c := calls[|results|];
      MadeByClient(client.reader, client.writer, before, client.Agreed(), c);
      var r := Perform(client, c);
      assert call(before, c) == Made(before, client.Agreed(), c);
      results := results + [r];
    }
  }

  /**
   A batch of reads on a prompt link with nothing unread, as the plugin polls: every result up to the first
   refusal, and that one, is the read of the memory.
   */
  method ReadBatch(client: Client, calls: seq<Call>) returns (results: seq<Result<seq<byte>, S7Error>>)
    requires client.Valid() && client.connected && client.maxRdPduData > 0 && client.maxWrPduData > 0
    requires client.plc.faults == [] && client.plc.unread == [] && OnlyReads(calls)
    modifies client`chunks, client.plc
    ensures |results| == |calls|
    ensures forall k :: 0 <= k < |calls| && AcceptedBefore(results, k) ==>
              ReadAsMeant(calls[k], old(client.plc.mem), client.Agreed(), results[k])
  {
    ghost var l, t := client.plc.State(), client.Agreed();
    ghost var call := TheClient(t);
    results := PerformAll(client, calls, call);
    BatchOfReads(call, t, l, calls, results);
  }
}
