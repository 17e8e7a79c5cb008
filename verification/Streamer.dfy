/**
 `BufferStreamer` of src/ingest_client.rs: the lock-step send loop, run against a stream whose
 inbound half is the sequence of ACKs the server delivers before it ends.
 */
module Streamer {
  import opened Common
  import opened SampleTable
  import opened TableLaws
  import opened Buffer
  import opened Delivery

  datatype StreamError = StreamEnded | BufferFailed

  class IngestStream {
    var sent: seq<SampleBatch>
    var inbound: seq<Ack>

    constructor (inbound: seq<Ack>)
      ensures sent == [] && this.inbound == inbound
    {
      sent, this.inbound := [], inbound;
    }

    /** The next ACK, or None once the server has closed the stream. */
    method Message() returns (ack: Option<Ack>)
      modifies this`inbound
      ensures ack == if old(inbound) == [] then None else Some(old(inbound)[0])
      ensures inbound == if old(inbound) == [] then [] else old(inbound)[1..]
    {
      if inbound == [] {
        return None;
      }
      ack := Some(inbound[0]);
      inbound := inbound[1..];
    }
  }

  /** The position of the first ACK that names batch `b`, or |acks|. */
  function FirstNaming(acks: seq<Ack>, b: Ulid): (k: nat)
    ensures k <= |acks|
    ensures forall i :: 0 <= i < k ==> acks[i].batchId != b
    ensures k < |acks| ==> acks[k].batchId == b
  {
    if acks == [] || acks[0].batchId == b then 0 else 1 + FirstNaming(acks[1..], b)
  }

  function SettledDb(db: Db, b: Ulid, status: Status): Db {
    if Deletes(status) then AckOkDb(db, b) else AckRetryDb(db, b)
  }

  /** A claimed batch as the streamer sends it: under its own origin, or else the agent's datasource. */
  function OnWire(datasource: string, claimed: ClaimedBatch): SampleBatch {
    SampleBatch(claimed.batchId, if claimed.origin == None then datasource else claimed.origin.value, claimed.samples)
  }

  function OnWireAll(datasource: string, batches: seq<ClaimedBatch>): (wire: seq<SampleBatch>)
    ensures |wire| == |batches|
  {
    seq(|batches|, i requires 0 <= i < |batches| => OnWire(datasource, batches[i]))
  }

  /** Where the send loop stands: tables, unread ACKs, batches sent, and whether the stream still lives. */
  datatype Progress = Progress(db: Db, acks: seq<Ack>, sent: seq<SampleBatch>, alive: bool)

  /** Sending `batch`: settled by the first ACK that names it; if there is none the stream has ended. */
  function AfterSend(p: Progress, datasource: string, batch: ClaimedBatch): Progress {
    var k := FirstNaming(p.acks, batch.batchId);
    if k == |p.acks| then Progress(p.db, [], p.sent + [OnWire(datasource, batch)], false)
    else
      Progress(SettledDb(p.db, batch.batchId, Decode(p.acks[k].code)), p.acks[k + 1..],
               p.sent + [OnWire(datasource, batch)], true)
  }

  /** What a status code, known or not, makes of the rows of batch `b`. */
  ghost predicate SettledBy(code: StatusCode, before: Db, after: Db, b: Ulid) {
    && after.inFlight == before.inFlight - {b} && after.nextId == before.nextId
    && match code
       case Known(Ok) | Known(Duplicate) | Known(Rejected) =>
         forall r :: r in after.rows <==> r in before.rows && r.batch != Some(b)
       case Known(Retry) | Known(Unspecified) | Unknown(_) =>
         && |after.rows| == |before.rows|
         && forall i :: 0 <= i < |before.rows| ==>
           after.rows[i] == if before.rows[i].batch == Some(b) then before.rows[i].(batch := None) else before.rows[i]
  }

  /**
   One batch sent: what goes on the wire, that ACKs naming other batches are passed over, and what each
   status code does; without an ACK that names it the batch stays as it is.
   */
  lemma SendExact(p: Progress, datasource: string, batch: ClaimedBatch, k: nat)
    requires k <= |p.acks| && forall i :: 0 <= i < k ==> p.acks[i].batchId != batch.batchId
    ensures var from := match batch.origin case Some(connector) => connector case None => datasource;
            AfterSend(p, datasource, batch).sent == p.sent + [SampleBatch(batch.batchId, from, batch.samples)]
    ensures k == |p.acks| ==> var q := AfterSend(p, datasource, batch); q.db == p.db && q.acks == [] && !q.alive
    ensures k < |p.acks| && p.acks[k].batchId == batch.batchId ==>
              var q := AfterSend(p, datasource, batch);
              q.alive && q.acks == p.acks[k + 1..] && SettledBy(p.acks[k].code, p.db, q.db, batch.batchId)
  {
    assert k <= FirstNaming(p.acks, batch.batchId);
  }

  /** Sending `batches` one after the other, until the stream ends. */
  function AfterResend(p: Progress, datasource: string, batches: seq<ClaimedBatch>): Progress
    decreases |batches|
  {
    if batches == [] || !p.alive then p else AfterResend(AfterSend(p, datasource, batches[0]), datasource, batches[1..])
  }

  /** What recovery puts on the wire is a prefix of the snapshot. */
  lemma {:induction false} ResendSends(p: Progress, datasource: string, batches: seq<ClaimedBatch>)
    ensures var sent := AfterResend(p, datasource, batches).sent;
            && |p.sent| <= |sent| <= |p.sent| + |batches|
            && sent == p.sent + OnWireAll(datasource, batches)[..|sent| - |p.sent|]
    decreases |batches|
  {
    if batches != [] && p.alive {
      var q := AfterSend(p, datasource, batches[0]);
      ResendSends(q, datasource, batches[1..]);
      assert OnWireAll(datasource, batches)[1..] == OnWireAll(datasource, batches[1..]);
      PrefixGrows(p.sent, OnWireAll(datasource, batches), |AfterResend(p, datasource, batches).sent| - |q.sent|);
    }
  }

  lemma PrefixGrows(sent: seq<SampleBatch>, batches: seq<SampleBatch>, k: nat)
    requires k < |batches|
    ensures sent + [batches[0]] + batches[1..][..k] == sent + batches[..k + 1]
  {
    assert batches[..k + 1] == [batches[0]] + batches[1..][..k];
  }

  /** One turn of the claim loop. */
  function AfterPoll(p: Progress, datasource: string, maxBatch: nat, freshId: Ulid, nowMs: int): Progress {
    if NextClaim(p.db.rows, maxBatch) == [] then p
    else
      var db := ClaimDb(p.db, maxBatch, freshId, nowMs);
      AfterSend(p.(db := db), datasource, BatchOf(db.rows, freshId))
  }

  function AfterPolls(p: Progress, datasource: string, maxBatch: nat, freshIds: seq<Ulid>, nowMs: int): Progress
    decreases |freshIds|
  {
    if freshIds == [] || !p.alive then p
    else AfterPolls(AfterPoll(p, datasource, maxBatch, freshIds[0], nowMs), datasource, maxBatch, freshIds[1..], nowMs)
  }

  /** One attempt on a stream: recovery in the order of the snapshot, then the claim loop. */
  function AfterAttempt(p: Progress, datasource: string, order: seq<Ulid>, maxBatch: nat, freshIds: seq<Ulid>,
                        nowMs: int): Progress
  {
    AfterPolls(AfterResend(p, datasource, Recovered(p.db.rows, order)), datasource, maxBatch, freshIds, nowMs)
  }

  /** The rows of every batch in flight. */
  ghost function InFlightRows(db: Db): map<Ulid, seq<Row>> { map b | b in db.inFlight :: Tagged(db.rows, Some(b)) }

  /** Settling a batch takes it out of flight and leaves every other batch as it was. */
  lemma SettledKeepsOthers(db: Db, b: Ulid, status: Status)
    requires Valid(db)
    ensures Valid(SettledDb(db, b, status))
    ensures SettledDb(db, b, status).inFlight == db.inFlight - {b}
    ensures InFlightRows(SettledDb(db, b, status)) == InFlightRows(db) - {b}
  {
    var after := SettledDb(db, b, status);
    assert Valid(after) && forall c :: c != b ==> Tagged(after.rows, Some(c)) == Tagged(db.rows, Some(c)) by {
      if Deletes(status) {
        AckOkEffect(db, b);
      } else {
        AckRetryEffect(db, b);
      }
    }
    OthersInFlight(db, after, b);
  }

  lemma OthersInFlight(before: Db, after: Db, b: Ulid)
    requires after.inFlight == before.inFlight - {b}
    requires forall c :: c != b ==> Tagged(after.rows, Some(c)) == Tagged(before.rows, Some(c))
    ensures InFlightRows(after) == InFlightRows(before) - {b}
  {
  }

  function FirstIds(batches: seq<ClaimedBatch>, n: nat): set<Ulid>
    requires n <= |batches|
  {
    set k | 0 <= k < n :: batches[k].batchId
  }

  /** The first `n` of `batches` have left the in-flight table; every other batch is as it was. */
  ghost predicate LeftFlight(before: Db, now: Db, batches: seq<ClaimedBatch>, n: nat) {
    n <= |batches| && InFlightRows(now) == InFlightRows(before) - FirstIds(batches, n)
  }

  /** How many of `batches` recovery settles before the stream ends. */
  function Settled(p: Progress, datasource: string, batches: seq<ClaimedBatch>): (n: nat)
    ensures n <= |batches|
    decreases |batches|
  {
    if batches == [] || !p.alive || !AfterSend(p, datasource, batches[0]).alive then 0
    else 1 + Settled(AfterSend(p, datasource, batches[0]), datasource, batches[1..])
  }

  /** Recovery takes exactly the batches it settles out of flight, and it goes on only if these are all. */
  lemma {:induction false} ResendLeaves(p: Progress, datasource: string, batches: seq<ClaimedBatch>)
    requires Valid(p.db) && p.alive
    ensures LeftFlight(p.db, AfterResend(p, datasource, batches).db, batches, Settled(p, datasource, batches))
    ensures AfterResend(p, datasource, batches).alive <==> Settled(p, datasource, batches) == |batches|
    decreases |batches|
  {
    if batches != [] {
      var q := AfterSend(p, datasource, batches[0]);
      if q.alive {
        SettledKeepsOthers(p.db, batches[0].batchId, Decode(p.acks[FirstNaming(p.acks, batches[0].batchId)].code));
        ResendLeaves(q, datasource, batches[1..]);
        var settled := Settled(q, datasource, batches[1..]);
        OneGoneBefore(p.db, q.db, AfterResend(p, datasource, batches).db, batches, settled);
      }
    }
  }

  lemma OneGoneBefore(before: Db, now: Db, after: Db, batches: seq<ClaimedBatch>, n: nat)
    requires batches != [] && LeftFlight(now, after, batches[1..], n)
    requires InFlightRows(now) == InFlightRows(before) - {batches[0].batchId}
    ensures LeftFlight(before, after, batches, n + 1)
  {
    assert FirstIds(batches, n + 1) == {batches[0].batchId} + FirstIds(batches[1..], n) by {
      forall k | 0 < k < n + 1 ensures batches[k].batchId in FirstIds(batches[1..], n) {
        assert batches[k] == batches[1..][k - 1];
      }
      forall k | 0 <= k < n ensures batches[1..][k].batchId in FirstIds(batches, n + 1) {
        assert batches[1..][k] == batches[k + 1];
      }
    }
  }

  class BufferStreamer {
    const buffer: BufferDb
    const datasource: string
    const maxBatch: nat

    constructor (buffer: BufferDb, datasource: string)
      ensures this.buffer == buffer && this.datasource == datasource && maxBatch == 1000
    {
      this.buffer, this.datasource, maxBatch := buffer, datasource, 1000;
    }

    ghost function Now(stream: IngestStream, alive: bool): Progress
      reads stream, buffer
    {
      Progress(buffer.Tables(), stream.inbound, stream.sent, alive)
    }

    /**
     Sends one batch and settles it by the first ACK that names it; ACKs naming other batches are
     discarded unread. If the stream ends first, the buffer is untouched and the batch stays in flight.
     */
    method SendAndAck(stream: IngestStream, claimed: ClaimedBatch) returns (r: Result<(), StreamError>)
      requires buffer.Consistent()
      modifies stream, buffer`rows, buffer`inFlight
      ensures buffer.Consistent()
      ensures Now(stream, r.Success?) == AfterSend(old(Now(stream, true)), datasource, claimed)
      ensures var from := match claimed.origin case Some(connector) => connector case None => datasource;
              stream.sent == old(stream.sent) + [SampleBatch(claimed.batchId, from, claimed.samples)]
      ensures r.Failure? ==> r == Failure(StreamEnded)
      ensures r.Success? ==>
                && buffer.inFlight == old(buffer.inFlight) - {claimed.batchId}
                && InFlightRows(buffer.Tables()) == InFlightRows(old(buffer.Tables())) - {claimed.batchId}
    {
      stream.sent := stream.sent + [OnWire(datasource, claimed)];
      var resolved := AwaitAck(stream, claimed.batchId);
      if resolved == None {
        return Failure(StreamEnded);
      }
      Settle(claimed.batchId, resolved.value);
      return Success(());
    }

    /** What the status does to the buffer; no other batch changes. */
    method Settle(batchId: Ulid, status: Status)
      requires buffer.Consistent()
      modifies buffer`rows, buffer`inFlight
      ensures buffer.Consistent() && buffer.Tables() == SettledDb(old(buffer.Tables()), batchId, status)
      ensures buffer.inFlight == old(buffer.inFlight) - {batchId}
      ensures InFlightRows(buffer.Tables()) == InFlightRows(old(buffer.Tables())) - {batchId}
    {
      SettledKeepsOthers(buffer.Tables(), batchId, status);
      match status {
        case Ok | Duplicate => buffer.AckOk(batchId);
        case Rejected => buffer.AckOk(batchId);
        case Retry | Unspecified => buffer.AckRetry(batchId);
      }
    }

    /** The ACK loop of `send_and_ack`: the status of the first ACK that names `batchId`. */
    method AwaitAck(stream: IngestStream, batchId: Ulid) returns (resolved: Option<Status>)
      modifies stream`inbound
      ensures var acks := old(stream.inbound);
              var k := FirstNaming(acks, batchId);
              if k == |acks| then resolved == None && stream.inbound == []
              else resolved == Some(Decode(acks[k].code)) && stream.inbound == acks[k + 1..]
    {
      resolved := None;
      ghost var acks := stream.inbound;
      ghost var read := 0;
      while resolved == None
        invariant 0 <= read <= |acks| && stream.inbound == acks[read..]
        invariant resolved == None ==> forall i :: 0 <= i < read ==> acks[i].batchId != batchId
        invariant resolved != None ==>
                    && read == FirstNaming(acks, batchId) + 1
                    && resolved == Some(Decode(acks[read - 1].code))
        decreases |stream.inbound|, if resolved == None then 1 else 0
      {
        var ack := stream.Message();
        if ack == None {
          return None;
        }
        resolved := ResolveAck(ack.value, batchId);
        read := read + 1;
      }
    }

    /**
     Recovery: resends the batches of the snapshot by send time, however many there are, until one of
     them gets no ACK. On success nothing is in flight any more; on failure all but the last one sent and
     those after it have left, and these are in flight as they were.
     */
    method ResendInFlight(stream: IngestStream)
      returns (r: Result<(), StreamError>, ghost order: seq<Ulid>, ghost n: nat)
      requires buffer.Consistent()
      modifies stream, buffer`rows, buffer`inFlight
      ensures buffer.Consistent()
      ensures RecoveryOrder(order, old(buffer.inFlight))
      ensures Now(stream, r.Success?)
           == AfterResend(old(Now(stream, true)), datasource, Recovered(old(buffer.rows), order))
      ensures r.Success? ==> buffer.inFlight == map[]
      ensures r.Failure? ==>
                && r == Failure(StreamEnded) && n < |order|
                && LeftFlight(old(buffer.Tables()), buffer.Tables(), Recovered(old(buffer.rows), order), n)
    {
      var ids, batches := buffer.RecoverInFlight();
      order := ids;
      n := Settled(Now(stream, true), datasource, batches);
      ResendLeaves(Now(stream, true), datasource, batches);
      r := ResendAll(stream, batches);
      if r.Success? {
        NoneLeft(old(buffer.Tables()), buffer.Tables(), order);
      }
    }

    /** The recovery loop over the batches read back. */
    method ResendAll(stream: IngestStream, batches: seq<ClaimedBatch>) returns (r: Result<(), StreamError>)
      requires buffer.Consistent()
      modifies stream, buffer`rows, buffer`inFlight
      ensures buffer.Consistent()
      ensures r.Failure? ==> r == Failure(StreamEnded)
      ensures Now(stream, r.Success?) == AfterResend(old(Now(stream, true)), datasource, batches)
    {
      ghost var whole := AfterResend(Now(stream, true), datasource, batches);
      var i := 0;
      while i < |batches|
        invariant 0 <= i <= |batches|
        invariant buffer.Consistent()
        invariant whole == AfterResend(Now(stream, true), datasource, batches[i..])
      {
        assert batches[i..][1..] == batches[i + 1..];
        r := SendAndAck(stream, batches[i]);
        if r.Failure? {
          return;
        }
        i := i + 1;
      }
      return Success(());
    }

    lemma NoneLeft(before: Db, after: Db, order: seq<Ulid>)
      requires RecoveryOrder(order, before.inFlight)
      requires LeftFlight(before, after, Recovered(before.rows, order), |order|)
      ensures after.inFlight == map[]
    {
      var batches := Recovered(before.rows, order);
      assert forall k :: 0 <= k < |order| ==> batches[k].batchId == order[k];
      assert forall b :: b in after.inFlight ==> b in InFlightRows(after);
      assert forall b :: b in InFlightRows(before) ==> b in order;
    }

    /**
     One attempt on an open stream: recovery, then the claim loop, observed for as many polls as there
     are fresh batch ids. What was sent, which ACKs were read and the tables left are exactly those of
     `AfterAttempt`. The loop only ever claims while nothing is in flight, so once recovery is complete
     at most the one batch just claimed is in flight; an attempt that ends in recovery leaves exactly the
     batches it did not settle.
     */
    method RunOneAttempt(stream: IngestStream, freshIds: seq<Ulid>, nowMs: int)
      returns (r: Result<(), StreamError>, ghost order: seq<Ulid>, ghost n: nat)
      requires buffer.Consistent()
      modifies stream, buffer`rows, buffer`inFlight
      ensures buffer.Consistent()
      ensures RecoveryOrder(order, old(buffer.inFlight)) && n <= |order|
      ensures Now(stream, r.Success?)
           == AfterAttempt(old(Now(stream, true)), datasource, order, maxBatch, freshIds, nowMs)
      ensures r.Success? ==> buffer.inFlight == map[]
      ensures n == |order| ==> |buffer.inFlight| <= 1
      ensures n < |order| ==> LeftFlight(old(buffer.Tables()), buffer.Tables(), Recovered(old(buffer.rows), order), n)
    {
      r, order, n := ResendInFlight(stream);
      if r.Failure? {
        return;
      }
      n := |order|;
      r := ClaimLoop(stream, freshIds, nowMs);
    }

    /** The claim loop, for as many turns as there are fresh ids. */
    method ClaimLoop(stream: IngestStream, freshIds: seq<Ulid>, nowMs: int) returns (r: Result<(), StreamError>)
      requires buffer.Consistent() && buffer.inFlight == map[]
      modifies stream, buffer`rows, buffer`inFlight
      ensures buffer.Consistent()
      ensures Now(stream, r.Success?) == AfterPolls(old(Now(stream, true)), datasource, maxBatch, freshIds, nowMs)
      ensures r.Success? ==> buffer.inFlight == map[]
      ensures |buffer.inFlight| <= 1
    {
      ghost var whole := AfterPolls(Now(stream, true), datasource, maxBatch, freshIds, nowMs);
      var i := 0;
      while i < |freshIds|
        invariant 0 <= i <= |freshIds|
        invariant buffer.Consistent() && buffer.inFlight == map[]
        invariant whole == AfterPolls(Now(stream, true), datasource, maxBatch, freshIds[i..], nowMs)
      {
        assert freshIds[i..][1..] == freshIds[i + 1..];
        r := Poll(stream, freshIds[i], nowMs);
        if r.Failure? {
          return;
        }
        i := i + 1;
      }
      return Success(());
    }

    /** One turn of the claim loop; with an empty buffer it only sleeps. */
    method Poll(stream: IngestStream, freshId: Ulid, nowMs: int) returns (r: Result<(), StreamError>)
      requires buffer.Consistent() && buffer.inFlight == map[]
      modifies stream, buffer`rows, buffer`inFlight
      ensures buffer.Consistent()
      ensures Now(stream, r.Success?) == AfterPoll(old(Now(stream, true)), datasource, maxBatch, freshId, nowMs)
      ensures r.Success? ==> buffer.inFlight == map[]
      ensures |buffer.inFlight| <= 1
    {
      var claimed := buffer.ClaimBatch(maxBatch, freshId, nowMs);
      if claimed.Failure? {
        return Failure(BufferFailed);
      }
      if claimed.value == None {
        return Success(());
      }
      assert buffer.inFlight == map[freshId := nowMs];
      r := SendAndAck(stream, claimed.value.value);
    }
  }
}
