# Lymon Agent: a verified model

A Dafny model of the parts of the Lymon Agent whose correctness depends on more than one step at a
time, with proofs. `dafny verify dfyconfig.toml` checks everything.

**Durable delivery** (`src/buffer.rs`, `src/ingest_client.rs`). Samples wait in an SQLite table, are
claimed in batches of one origin, sent over a gRPC stream and deleted or returned by the ACK that names
the batch. `SampleTable` gives each SQL transaction as a function on the tables and `TableLaws` says what
it does; class `Buffer.BufferDb` runs the transactions statement by statement, and class
`Streamer.BufferStreamer` is the lock-step send loop. `Delivery` is the whole system as a step relation:
tables, streamer phase, both channels of the stream, the deduplicating server. Enqueues, ACK duplication
and reordering, disconnects and crashes may happen between any two steps. `DeliverySafety` states one
invariant, `DeliverySteps` proves that each action keeps it, and `DeliveryTheorems`, `DeliveryProgress`
and `DeliveryRounds` draw the conclusions: exactly-once, per-origin order, conservation, lock-step,
faithful recovery, capacity, no starvation, the exact number of rounds of a drain.

**S7 transfers** (`crates/plugin-s7/src/s7/client.rs`). `S7Telegram` builds and parses the telegrams byte
for byte. `S7Link` is a PLC with byte memories and the TCP stream between, whose unread bytes are state: every
job appends the PLC's reply, possibly late, and reads from the oldest byte on. `S7Transfer` gives the chunked
loops as functions on that link and proves that, with nothing unread, they are one flat copy wherever a single
read or write of that size works, and for which PDU lengths that is. `S7Calls` and `S7Sequence` follow whole
sequences of calls on one connection, as the plugin makes them (`crates/plugin-s7/src/main.rs:95-112`): when
each reads its own reply, and whose it reads otherwise. Class `S7Client.Client` is the client itself.

**Smaller cores.** `Browse`: the OPC-UA tree browse with a shared node budget. `LogBuf`: the log line
splitter and its ring. `PluginExchange`: the request/reply lock-step between the agent and a plugin
process. `ModbusCodec`: register encoding and scaling. `PssQuery`: percent-encoding of the PSS query path.

## Assumptions

- A new batch id was never used before (ULIDs, `src/buffer.rs:292`), and row ids are never reused
  (`AUTOINCREMENT`, `src/buffer.rs:101`). `ClaimBatch` itself also covers the colliding id, which
  violates the primary key.
- The ingest server stores a batch id at most once, answers Ok or Duplicate exactly for a batch it has
  stored, and anything else only for one it has not. A disconnect discards both channels of the stream.
- The database starts empty and a committed transaction survives a crash of the agent.
- The definition of the ACK status enum is not part of this model; a status is one of the five the
  streamer names, or an unknown code, which it reads as Unspecified.
- A PLC executes a well-formed job as `S7Link.Execute` says and answers it with one reply. It drops a
  telegram that is no job, or that is longer than the longest it takes: a parameter, which for a PLC that
  is strict about the PDU length it negotiated is that length plus 7.
- A read that times out has taken the bytes that came in time off the stream. Only a new connection discards
  what is unread.
- A plugin process writes what the SDK loop writes and nothing else on its standard output, and a request
  cut off in the middle makes the line it stands on no `subscribe` request and not blank.
- An OPC-UA server answers a node with the same pages throughout one browse.
- Counters that are 64 bits wide are unbounded here. The 16-bit arithmetic of the S7 client is modelled
  as it wraps in a release build.

## Where the code and its promises differ

- The chunk lengths of the S7 client are the PDU length less 18 and less 28, wrapping, and the negotiation
  only refuses 0. At 18 a read and at 28 a write never advance; at every other length the calls end as
  follows, on a prompt link, with nothing unread on the stream and for a target that is there. A read of n > 0
  bytes succeeds exactly if the PLC takes its 31-byte telegram, the PDU is at least 19, and it is at most 480
  or n at most 462, because the client's response array has 480 bytes; otherwise it fails with the error of an
  invalid telegram, or times out (`S7Client.Client.ReadArea`, `S7Transfer.ReadExact`). A write succeeds exactly
  if the PLC takes its first and longest telegram, with fewer than 8192 payload bytes, and the PDU is at least
  15; below 15 the first chunk is written although the call fails (`S7Client.Client.WriteArea`,
  `S7Transfer.WriteExact`). With a strict PLC that makes reads work exactly from 24 on (above 480 up to 462
  bytes) and writes exactly from 29 on (from 8220 on below 8192 bytes) (`S7Transfer.StrictPlc`).
- The client keeps its connection after an error, and all jobs carry the same PDU reference
  (`crates/plugin-s7/src/s7/client.rs:656-657`), so a call that starts with bytes unread takes them for its own
  reply. A job leaves bytes unread exactly if its reply is refused for its size, of which only the header is
  read, or is late (`S7Link.ExchangeOverFault`, `S7Link.SettlesExact`); not on success, and not on a result
  code of the PLC. Over all sequences of calls on a prompt link, everything up to the k-th call is in
  step exactly if none before it failed with the error of an invalid telegram (`S7Sequence.InStepExact`), and
  the call after the first that did fails with an invalid header, whatever it asks for
  (`S7Sequence.AfterRefused`; a read of 1000 bytes at PDU 960 and then of 4: `RefusedReadSpoilsNext`). After a
  read that timed out with its reply late, each later read gets the reply of an earlier one, with success
  (`S7Sequence.RepliesLagBehind`; two reads of one byte: `LateByteServesNext`). That no earlier call has left
  bytes is sufficient for a single call but not necessary: a write that the PLC drops uses up a late reply,
  reports success, writes nothing, and the call after it is in step again (`S7Sequence.DroppedWriteSucceeds`).
  What decides is whether anything is unread when the call starts (`S7Sequence.OldestBytesFirst`).
- A bit address is computed in 16 bits: `read_bit` and `write_bit` act on byte `byte_num % 8192`, so on
  another byte than asked from 8192 on (`S7Client.Client.ReadBit`, `S7Client.Client.WriteBit`).
- The payload length in bits of a write job is cut to 16 bits exactly from 8192 bytes on, and the telegram
  then is no job at all (`S7Telegram.WriteRoundTrip`, `S7Telegram.WriteParsesOrNot`).
- With a Modbus scale of 0 the write path divides by 1 but the read path multiplies by 0, so a read-back
  value does not write the same words again (`ModbusCodec.ReEncodeStable` gives the exact condition).
- A plugin call that is aborted once its request is on its way leaves the process with a reply nobody
  reads or a half line, and the next call gets the wrong reply (`PluginExchange.LockStepExact` and
  `CancelledCallDesyncs`). Aborts come from `src/collector.rs:111-113`.
- A wide OPC-UA folder is cut at 65 pages as well as at the budget (`Browse.OneLevelExact`).

## Model

| member | source | states |
|---|---|---|
| Buffer.BufferDb.Open | src/buffer.rs:78-143 | opening keeps the tables on disk and resets the in-memory drop counter |
| Buffer.BufferDb.EnqueueWithOrigin | src/buffer.rs:170-253 | the tables become the enqueue transaction's; nothing is evicted while the table stays at or below the mark; above it the counter grows by exactly min(pending, max(overshoot, max(1, max_rows/100))), the rows that are gone; the log clock moves only after a drop and 30 s; consistency is kept |
| Buffer.BufferDb.DropOldest | src/buffer.rs:187-235 | deletes exactly the oldest pending rows, none at or below the mark and min(pending, max(overshoot, max(1, max_rows/100))) above it, and counts them |
| Buffer.BufferDb.InsertAll | src/buffer.rs:237-248 | appends one pending row per sample, in order, under consecutive new ids |
| Buffer.BufferDb.ClaimBatch | src/buffer.rs:258-329 | None exactly when nothing is pending or the size is 0; failure exactly on a colliding id, with the tables unchanged; otherwise the batch, recorded with the time of the claim, holds the claimed rows' samples in id order and the oldest pending row's origin |
| Buffer.BufferDb.TagAll | src/buffer.rs:298-304 | the per-id updates together tag exactly the claimed ids |
| Buffer.BufferDb.AckOk | src/buffer.rs:333-350 | deletes the rows and the record of that batch, keeping consistency |
| Buffer.BufferDb.AckRetry | src/buffer.rs:354-371 | returns the rows of that batch to pending and forgets the batch, keeping consistency |
| Buffer.BufferDb.BatchIdsBySendTime | src/buffer.rs:381-387 | lists every in-flight batch once, by send time |
| Buffer.BufferDb.RecoverInFlight | src/buffer.rs:376-410 | every in-flight batch once, by send time, with the samples and origin of its rows |
| Buffer.RecoveredHolds | src/buffer.rs:388-410 | a batch read back has the samples of its rows by id, and the origin they share |
| Buffer.BufferDb.Counts | src/buffer.rs:413-430 | pending and in-flight rows, which together are all rows |
| Buffer.ClaimedBatchIs | src/buffer.rs:264-326 | what is read back inside the claim is the claimed samples with their common origin, and the tables stay consistent |
| TableLaws.EnqueueEffect | src/buffer.rs:183-248 | an enqueue drops a prefix of the pending rows, appends the new ones, and leaves every claimed row and batch as it was |
| TableLaws.EvictionExact | src/buffer.rs:186-230 | the victims are exactly the min(pending, max(overshoot, max(1, max_rows/100))) smallest-id pending rows, and none at or below the mark; afterwards the count is at most max(max_rows, claimed + added) |
| TableLaws.EnqueueCounts | src/buffer.rs:186-230 | how many rows an enqueue leaves, and that at or below the mark the old rows stay as they are |
| TableLaws.EnqueueTakes | src/buffer.rs:197-203 | a row that an enqueue takes off was pending, and older than every pending row that stays |
| TableLaws.EnqueueAdds | src/buffer.rs:237-248 | an enqueue adds one pending row for each sample, in order, under the next ids and its origin |
| TableLaws.NextClaimFacts | src/buffer.rs:264-286 | a claim is the oldest pending row and the oldest others of its origin, as many as fit; no skipped row of that origin is older than a claimed one |
| TableLaws.ClaimMembership | src/buffer.rs:298-304 | after a claim a row is as before, or is a claimed row under the new batch id |
| TableLaws.ClaimKeepsValid | src/buffer.rs:258-313 | a claim keeps the two tables consistent and every other batch as it was |
| TableLaws.ClaimPending | src/buffer.rs:264-304 | a claim takes exactly the claimed rows off the pending ones |
| TableLaws.AckOkEffect | src/buffer.rs:333-350 | deleting a batch leaves pending rows and other batches as they were |
| TableLaws.AckRetryEffect | src/buffer.rs:354-371 | returning a batch changes only its rows, to pending, and loses none |
| DeliverySafety.InitInv | src/buffer.rs:82-137 | an agent with an empty database satisfies the invariant |
| DeliveryTheorems.EnqueueKeepsInv | src/buffer.rs:170-253 | an enqueue in any phase keeps the invariant |
| DeliveryTheorems.ClaimKeepsInv | src/ingest_client.rs:149-152 | a claim by the idle loop keeps the invariant |
| DeliveryTheorems.SettleKeepsInv | src/ingest_client.rs:230-264 | deleting or returning the batch after its ACK keeps the invariant, also when rows were enqueued or evicted meanwhile |
| DeliveryTheorems.ReplyKeepsInv | src/ingest_client.rs:135-144 | the server ingesting and answering a batch keeps the invariant, for every status it may give |
| DeliveryTheorems.LinkActionKeepsInv | src/ingest_client.rs:129-144 | connecting, reading the recovery list, sending, duplicating and reading ACKs and disconnecting keep the invariant |
| DeliveryTheorems.CrashKeepsInv | src/buffer.rs:24-26 | a crash at any point keeps the invariant |
| DeliveryTheorems.StepKeepsInv | src/ingest_client.rs:88-267 | every enabled action keeps the invariant |
| DeliveryTheorems.ReachableInv | src/ingest_client.rs:62-267 | every state of every run satisfies the invariant |
| DeliveryTheorems.ExactlyOnce | src/ingest_client.rs:135-266 | in every run no row is ingested twice; every row deleted on Ok or Duplicate was ingested exactly once, no rejected, evicted or pending row ever |
| DeliveryTheorems.PerOriginOrder | src/buffer.rs:264-286 | in every run the rows ingested of each origin have strictly increasing ids, the default origin included |
| DeliveryTheorems.IngestIsFaithful | src/ingest_client.rs:186-200 | the server stores the sample as enqueued, under its producer's datasource |
| DeliveryTheorems.Conservation | src/buffer.rs:186-371 | in every run each inserted row is in exactly one of the table, delivered, rejected and evicted, and the drop counter is exactly the evictions since the database was opened |
| DeliveryTheorems.OnlyPendingEvicted | src/buffer.rs:32-38 | a row is only ever evicted by an enqueue, and only while pending |
| DeliveryTheorems.LockStep | src/ingest_client.rs:133-152 | in every run at most one batch of at most max_batch_size rows is in flight, and none at all when the loop claims |
| DeliveryTheorems.FaithfulRecovery | src/buffer.rs:376-410 | in every run the batch ids of the rows are the in-flight records, a batch has one origin, and recovery and every message carry the batch as claimed, with its datasource |
| DeliveryTheorems.ClaimsAreKept | src/buffer.rs:258-329 | what a batch was claimed as is fixed for the rest of the run |
| DeliveryTheorems.CapacityBound | src/buffer.rs:186-230 | in every run the table holds at most max(max_rows, max_batch_size + largest enqueue) rows |
| DeliveryProgress.RoundsBoundedByOlder | src/buffer.rs:264-286 | while a row stays pending, no more rounds complete than there were older rows |
| DeliveryProgress.NoStarvation | src/ingest_client.rs:149-164 | from every reachable state, a row with k older rows is claimed or evicted before k + 1 rounds complete, whatever is enqueued, retried or lost between |
| DeliveryProgress.ClaimSavesOne | src/buffer.rs:278-286 | one claim lowers the sum over origins of ceil(rows / max_batch_size) by exactly one |
| DeliveryProgress.DrainExact | src/ingest_client.rs:149-164 | without enqueues and with every batch deleted, the table is empty exactly when that sum of rounds has completed, and there are never more |
| DeliveryRounds.RoundRuns | src/ingest_client.rs:177-267 | one send-and-acknowledge round is a run of the step relation, past any stale ACKs, leaves the tables SendAndAck leaves, and puts the batch on the stream that SendAndAck sends |
| DeliveryRounds.DrainExists | src/ingest_client.rs:88-164 | from every reachable state there is a run that drains the buffer, in exactly one round for the batch in flight and ceil(pending rows / max_batch_size) for each origin |
| DeliveryRounds.PollsAreRuns | src/ingest_client.rs:149-169 | for every list of fresh ids and answers, with ACKs the stream delivered before delivered again in any order and number, the claim loop is a run of the step relation, leaving the same tables and having sent exactly what the sends of that run put on the stream |
| DeliveryRounds.AttemptIsRun | src/ingest_client.rs:133-171 | a whole attempt, recovery and claim loop, is a run of the step relation with the same tables and the same batches on the wire, for every answer the server may give, every repetition of earlier ACKs and every point at which the stream ends |
| DeliveryRounds.EnqueueRecords | src/buffer.rs:237-248 | an enqueue step records one inserted row for each sample, in order |
| DeliveryRounds.ReplyExact | src/ingest_client.rs:135-144 | the server stores a batch once, on the first Ok, one entry for each sample with its row, and calls it a duplicate only after that |
| DeliveryRounds.ReadAckExact | src/ingest_client.rs:216-229 | the ACK read decides by its own id and code; an unknown code counts as Unspecified, an ACK of another batch changes nothing |
| DeliveryRounds.SettleExact | src/ingest_client.rs:230-264 | Ok, Duplicate and Rejected delete the rows of the batch, every other status returns them to pending |
| DeliveryRounds.SameOnWire | src/ingest_client.rs:186-200 | what the streamer puts on the wire for a claim is the batch of the message of the step relation |
| DeliveryRounds.RoundPuts | src/ingest_client.rs:202-205 | a round puts its batch on the wire exactly once |
| Common.CeilDivIsCeiling | crates/plugin-s7/src/s7/client.rs:638-641 | the chunk count the transfer contracts state is the rounded-up quotient of length and chunk length |
| Streamer.FirstNaming | src/ingest_client.rs:216-229 | the first ACK on the stream that names the batch |
| Streamer.BufferStreamer.AwaitAck | src/ingest_client.rs:216-229 | reads on to the first ACK naming the batch and returns its status; the others are discarded |
| Streamer.BufferStreamer.Settle | src/ingest_client.rs:230-264 | Ok, Duplicate and Rejected delete the batch, every other status returns it to pending; no other batch changes |
| Streamer.BufferStreamer.SendAndAck | src/ingest_client.rs:177-267 | sends the batch under its origin's datasource; the first ACK naming it settles it, every other is discarded; if the stream ends first the buffer is untouched; no other batch changes; what it sends is the id, the samples and the datasource of the claim, the default one for a claim without origin |
| Streamer.SendExact | src/ingest_client.rs:177-267 | one batch sent: its samples under its own origin or the default datasource; ACKs of other batches passed over; what each status code, known or not, does to the rows; nothing without an ACK |
| Streamer.BufferStreamer.ResendInFlight | src/ingest_client.rs:133-144 | resends the snapshot in order until one gets no ACK; on success nothing is in flight, on failure all but the settled ones are, unchanged; what was sent, read and left is exact |
| Streamer.BufferStreamer.ResendAll | src/ingest_client.rs:142-144 | the recovery loop sends, reads and settles exactly what its specification does |
| Streamer.ResendLeaves | src/ingest_client.rs:142-144 | recovery takes exactly the batches it settles out of flight and goes on only if these are all |
| Streamer.ResendSends | src/ingest_client.rs:142-144 | what recovery sends is a prefix of the snapshot |
| Streamer.BufferStreamer.RunOneAttempt | src/ingest_client.rs:133-171 | what an attempt sends, which ACKs it reads and the tables it leaves are exactly those of its specification; after a completed recovery at most the batch just claimed is in flight, and an attempt that ends in recovery leaves exactly the batches it did not settle |
| Streamer.BufferStreamer.ClaimLoop | src/ingest_client.rs:149-171 | the same for the claim loop alone, over any number of turns |
| Streamer.BufferStreamer.Poll | src/ingest_client.rs:151-169 | one turn claims and sends the next batch, if any, exactly as specified; from nothing in flight it leaves at most that batch in flight, and none when it succeeds |
| Streamer.SettledKeepsOthers | src/ingest_client.rs:230-264 | settling a batch by any status takes exactly that batch out of flight |
| S7Telegram.ReadRoundTrip | crates/plugin-s7/src/s7/client.rs:643-686 | a read telegram parses back to area, DB, count, word length and address |
| S7Telegram.WriteRoundTrip | crates/plugin-s7/src/s7/client.rs:836-891 | the TPKT length (section 6 of RFC 1006) is the real length; the telegram parses back to the job exactly when the bit count is not cut |
| S7Telegram.WriteParsesOrNot | crates/plugin-s7/src/s7/client.rs:824-891 | a write telegram parses to what was asked or to no job, and exactly when |
| S7Telegram.WriteFitsPdu | crates/plugin-s7/src/s7/client.rs:824-891 | a write telegram never exceeds the PDU length and 7 bytes |
| S7Telegram.AddressFits | crates/plugin-s7/src/s7/client.rs:669-676 | the 24-bit bit address holds every address a 16-bit start and length reach |
| S7Telegram.CheckIsoPacket | crates/plugin-s7/src/s7/client.rs:165-203 | an accepted header leaves between 1 and PDU-length bytes to read, by its own length field |
| S7Telegram.FramedPasses | crates/plugin-s7/src/s7/client.rs:165-203 | a framed telegram is accepted exactly when it is not empty and fits the PDU |
| S7Telegram.HeaderExact | crates/plugin-s7/src/s7/client.rs:165-203 | which of all 7-byte headers are accepted, with which length, and with which error each other one is refused |
| S7Telegram.FramedHeader | crates/plugin-s7/src/s7/client.rs:155-170 | the header in front of a reply, byte by byte |
| S7Telegram.ReplyLayout | crates/plugin-s7/src/s7/client.rs:700-720 | the reply to a read and to a write, byte by byte |
| S7Transfer.ItemIs | crates/plugin-s7/src/s7/client.rs:660-676 | bytes 22 to 30 of a job: word length, count, DB number, area and the 24-bit address |
| S7Transfer.ByteItemIs | crates/plugin-s7/src/s7/client.rs:666-676 | a job on bytes counts bytes and addresses bits |
| S7Transfer.BitItemIs | crates/plugin-s7/src/s7/client.rs:666-676 | a job on one bit counts one element at the address of the bit |
| S7Transfer.ReadTelegram | crates/plugin-s7/src/s7/client.rs:643-676 | a read telegram, byte by byte |
| S7Transfer.WriteHead | crates/plugin-s7/src/s7/client.rs:836-891 | a write telegram up to its item, byte by byte, with its lengths |
| S7Transfer.WriteTail | crates/plugin-s7/src/s7/client.rs:836-891 | behind the item: transport size, length in bits cut to 16, and the payload |
| S7Client.Client.Negotiated | crates/plugin-s7/src/s7/client.rs:518-530 | only length 0 is refused; both chunk lengths are positive exactly if the length is neither 18 nor 28; nothing is unread on the new stream |
| S7Link.Receive | crates/plugin-s7/src/s7/client.rs:688-716 | an accepted reply has at least the header and fits both the array and the PDU; whatever is left is the end of the stream, and something is taken whenever something is there |
| S7Link.ReceiveReply | crates/plugin-s7/src/s7/client.rs:688-723 | a stream that starts with a framed reply, as far as it is there in time: the verdict is that of its size, its time and its result code, an over-long one with a cut length field included, and what stays is what the client has not read |
| S7Link.ReceiveRefused | crates/plugin-s7/src/s7/client.rs:691-706 | of a telegram whose header or announced size is refused only the header is read |
| S7Link.JudgedBy | crates/plugin-s7/src/s7/client.rs:709-716 | the four outcomes of an accepted reply by its result code |
| S7Link.ExchangeOverFault | crates/plugin-s7/src/s7/client.rs:686-723 | one job from nothing unread, whatever is lost, late or cut off: its result, the memory and the bytes left |
| S7Link.SettlesExact | crates/plugin-s7/src/s7/client.rs:688-716 | a job leaves nothing unread exactly if its reply never came, was cut off within the header, or was accepted for its size and not late |
| S7Link.PromptInStep | crates/plugin-s7/src/s7/client.rs:686-723 | with nothing unread and everything in time a job gets the verdict on its own reply, and leaves that reply exactly if it is refused for its size |
| S7Link.Plc.ReadExact | crates/plugin-s7/src/s7/client.rs:691-707 | takes the next bytes, or on a timeout what is there in time |
| S7Transfer.ReadLoopKeeps | crates/plugin-s7/src/s7/client.rs:718-721 | on any link, the buffer behind the bytes asked for is not touched |
| S7Transfer.FilledIs | crates/plugin-s7/src/s7/client.rs:718-721 | of a reply, however short, the bytes from 18 on are copied, as many as were asked for and are there |
| S7Transfer.WholeReadIs | crates/plugin-s7/src/s7/client.rs:601-729 | where a read of that size works it returns the bytes of the area asked for, DB numbers counting in data blocks only, or the error of an area or range that is not there |
| S7Transfer.WholeWriteIs | crates/plugin-s7/src/s7/client.rs:783-930 | the same for a write, which changes exactly the range asked for |
| S7Transfer.FitsIsWorks | crates/plugin-s7/src/s7/client.rs:601-930 | the two conditions in plain numbers |
| S7Transfer.ReadLoopInStep | crates/plugin-s7/src/s7/client.rs:635-724 | with nothing unread the read loop is the verdict on its first chunk and else the flat read, in ceil(len / chunk) jobs |
| S7Transfer.WriteLoopInStep | crates/plugin-s7/src/s7/client.rs:824-925 | with nothing unread the write loop is the flat write up to the first chunk that fails, which leaves unread exactly a reply refused for its size |
| S7Calls.CallInStep | crates/plugin-s7/src/s7/client.rs:601-1076 | with nothing unread each of the four calls does what it says, and leaves nothing unread unless a reply is refused for its size |
| S7Calls.FaultsOnlyStop | crates/plugin-s7/src/s7/client.rs:601-1076 | with nothing unread, over any losses, delays and cuts, a call fails with an I/O error or does exactly what it does on a prompt link |
| S7Sequence.InStepExact | crates/plugin-s7/src/main.rs:95-112 | over all sequences of calls on a prompt link: everything up to the k-th starts with nothing unread exactly if no call before it failed with the error of an invalid telegram |
| S7Sequence.CallAtInStep | crates/plugin-s7/src/main.rs:95-112 | a call of the sequence that is in step does what it says on memory as it stands |
| S7Sequence.InStepOverFaults | crates/plugin-s7/src/main.rs:95-112 | over any losses, delays and cuts, as long as no call failed with an I/O error or refused a reply the next is in step: it fails with an I/O error or does what it says |
| S7Sequence.ReadsUpToRefusal | crates/plugin-s7/src/main.rs:92-114 | in a sequence of reads every call up to the first refusal, and that one, reads memory as it was at the start |
| S7Sequence.AfterRefused | crates/plugin-s7/src/s7/client.rs:165-203 | the call after the first refused one fails with an invalid header, whatever it asks for |
| S7Sequence.SettledExact | crates/plugin-s7/src/s7/client.rs:686-723 | over every run of jobs and any losses, delays and cuts: everything up to the k-th job finds nothing unread exactly if every job before settled, that is its reply never came, was cut off within the header, or was accepted for its size and not late |
| S7Sequence.OldestBytesFirst | crates/plugin-s7/src/s7/client.rs:691-707 | on any link a job reads from the oldest unread byte on, and reads some exactly if any is there in time |
| S7Sequence.RepliesLagBehind | crates/plugin-s7/src/s7/client.rs:691-723 | over every run of jobs of one kind, each reply in time or late: a job gets the reply of the job as many earlier as replies came late, its own exactly if none did |
| S7Sequence.RefusedReadSpoils | crates/plugin-s7/src/s7/client.rs:704 | a read that does not work for its size fails the next call |
| S7Sequence.RefusedReadSpoilsNext | crates/plugin-s7/src/s7/client.rs:704 | PDU 960: a read of 1000 bytes, then one of 4 that fails though it would work alone |
| S7Sequence.LateReadServesNext | crates/plugin-s7/src/main.rs:95-110 | after a read whose reply was late, a read of the same size returns the bytes of the earlier one |
| S7Sequence.LateByteServesNext | crates/plugin-s7/src/main.rs:95-110 | bytes 7 and 9: the first read times out and the read of the second returns 7 |
| S7Sequence.DroppedWriteSucceeds | crates/plugin-s7/src/s7/client.rs:893-923 | after a late reply a write that the PLC drops reports success and writes nothing, and the next call is in step again |
| S7Client.Client.CheckCall | crates/plugin-s7/src/s7/client.rs:609-620 | area (one of 0x81 to 0x84), word length (1 or 2) and connection are refused in the order and with the errors of the source |
| S7Client.Client.ReadArea | crates/plugin-s7/src/s7/client.rs:601-729 | on any link and with any bytes unread, the loop of `S7Transfer`; with nothing unread on a prompt link, for every PDU length with a positive chunk: the first chunk decides whether the read works at all; if so the buffer equals one flat read, in ceil(len / chunk) exchanges, memory and the rest of the buffer unchanged, errors being those of the flat read; the exact condition for success; a bit read returns that bit; nothing is unread afterwards, but for the reply to the first chunk if that is refused |
| S7Client.Client.ReadBytes | crates/plugin-s7/src/s7/client.rs:635-724 | the chunk loop ends, for every link, as its function does; with nothing unread on a prompt link it gives the verdict on the first chunk and else the flat read, and when it works |
| S7Client.Client.Transact | crates/plugin-s7/src/s7/client.rs:686-716 | sends one request and reads one reply from wherever the stream stands, on any link |
| S7Client.Client.ReadNext | crates/plugin-s7/src/s7/client.rs:638-724 | one turn of the loop, on any link and with any bytes unread |
| S7Client.Client.ReadChunk | crates/plugin-s7/src/s7/client.rs:643-722 | one read job fills exactly its part of the buffer with what came back, or fails, on any link |
| S7Client.Client.WriteArea | crates/plugin-s7/src/s7/client.rs:783-930 | on any link and with any bytes unread, the loop of `S7Transfer`; with nothing unread on a prompt link, for every PDU length with a positive chunk: memory becomes one flat write, in ceil(len / chunk) exchanges; a write off the end has written exactly the chunks before the failing one; a first chunk that is dropped, or whose reply is refused, leaves exactly its own effect; the exact condition for success; a bit write changes one bit; nothing is unread afterwards, but for a refused reply |
| S7Client.Client.WriteBytes | crates/plugin-s7/src/s7/client.rs:824-925 | the chunk loop, on any link as its function does; with nothing unread on a prompt link over any PDU length and any longest telegram the PLC takes |
| S7Client.Client.WriteChunk | crates/plugin-s7/src/s7/client.rs:830-923 | one write job and the verdict on what came back, on any link |
| S7Client.Client.ReadBit | crates/plugin-s7/src/s7/client.rs:990-1007 | reads bit bit_idx of byte byte_num % 8192; with nothing unread as a byte read would return it, with its errors |
| S7Client.Client.WriteBit | crates/plugin-s7/src/s7/client.rs:1059-1076 | with nothing unread changes exactly bit bit_idx of byte byte_num % 8192 |
| S7Transfer.BitAddressWraps | crates/plugin-s7/src/s7/client.rs:1001 | the 16-bit element address is the asked bit of byte byte_num % 8192, the asked byte exactly below 8192 |
| S7Link.SetBitIs | crates/plugin-s7/src/s7/client.rs:1059-1076 | setting a bit sets it and no other |
| S7Link.WithBitIs | crates/plugin-s7/src/s7/client.rs:1059-1076 | setting a bit of a byte sets it and keeps the other seven |
| S7Link.BitOfByte | crates/plugin-s7/src/s7/client.rs:990-1007 | bit i of a byte as a quotient and remainder |
| S7Transfer.ReadAfterWrite | crates/plugin-s7/src/s7/client.rs:601-930 | a flat read of a flat write returns the data |
| S7Transfer.ReadExact | crates/plugin-s7/src/s7/client.rs:601-729 | for every PDU length but 18, whether reading a target that is there succeeds, as a condition on the PDU length and the size, and with which error it fails otherwise |
| S7Transfer.WriteExact | crates/plugin-s7/src/s7/client.rs:783-930 | the same for writing: success exactly if the PLC takes the longest chunk and the PDU holds the 15-byte reply |
| S7Transfer.StrictPlcTakes | crates/plugin-s7/src/s7/client.rs:824-891 | from PDU 29 on, a PLC that enforces its PDU length takes every write telegram below 8192 payload bytes and no other |
| S7Transfer.StrictPlc | crates/plugin-s7/src/s7/client.rs:518-524 | against such a PLC reads work exactly from PDU 24 on (above 480 up to 462 bytes) and writes exactly from 29 on |
| S7Client.WriteThenRead | crates/plugin-s7/src/s7/client.rs:601-930 | with nothing unread on a prompt link, for every area, start, data up to 65535 bytes and PDU length with positive chunks, the data comes back exactly if a write and a read of that size work, and then exactly the target range has changed and nothing is unread; if the target is not there, memory is as the failed write left it |
| S7Client.Perform | crates/plugin-s7/src/s7/client.rs:601-1076 | each of the four calls on the class is its function on the link |
| S7Client.PerformAll | crates/plugin-s7/src/main.rs:95-112 | a batch of calls that goes on after a failed one has the results and leaves the link of the sequence |
| S7Client.ReadBatch | crates/plugin-s7/src/main.rs:92-114 | in a batch of reads on a prompt link every result up to the first refusal, and that one, is the read of memory as it is |
| Browse.Browser.Gather | crates/plugin-opcua/src/main.rs:422-452 | the page loop ends with enough references to spend the budget, or with all of the first 65 pages up to an error |
| Browse.Browser.BrowseNode | crates/plugin-opcua/src/main.rs:393-470 | terminates on every graph; the tree and the budget left are the preorder truncation of the tree unfolded to the depth with every reachable page drained, and the tree shows the references of the graph |
| Browse.Browser.BrowseAll | crates/plugin-opcua/src/main.rs:454-467 | the loop over the references of one node is the truncation of what they grow to |
| Browse.TruncatedShows | crates/plugin-opcua/src/main.rs:393-470 | on every graph the k-th node kept under a node has the target and name of its k-th reference, is a leaf exactly if that is a variable, and otherwise shows the references of its target one level less deep; nothing is missing while budget is left |
| Browse.ReferenceAt | crates/plugin-opcua/src/main.rs:422-452 | the q-th reference of the p-th of at most 65 pages follows those of the pages before |
| Browse.ReferenceCount | crates/plugin-opcua/src/main.rs:422-452 | the references of a node are those of its pages up to the first answer that is none, or of 65 pages |
| Browse.TruncateIsPreorderPrefix | crates/plugin-opcua/src/main.rs:454-467 | the nodes kept are the first min(budget, size) in preorder |
| Browse.TruncateSpends | crates/plugin-opcua/src/main.rs:456-459 | the nodes kept and the budget left add up to the budget |
| Browse.BrowseBounds | crates/plugin-opcua/src/main.rs:385-391 | on every graph, cyclic ones included, height at most depth and node count exactly the budget spent |
| Browse.TruncateEnough | crates/plugin-opcua/src/main.rs:433-435 | references past the budget do not matter |
| Browse.CapIrrelevant | crates/plugin-opcua/src/main.rs:430-452 | with at most 65 pages a node, the bound on pages changes nothing at any depth |
| Browse.OneLevelExact | crates/plugin-opcua/src/main.rs:385-388 | at the plugin's depth, the bound on pages changes nothing exactly when 65 pages hold every reference or spend the budget |
| Browse.Discover | crates/plugin-opcua/src/main.rs:322-329 | one level: the first 1000 references of the root, in order, variables as leaves and anything else as an empty folder |
| LogBuf.Ring.PushLine | src/logbuf.rs:19-30 | keeps a non-empty trimmed line, dropping the oldest beyond 500 |
| LogBuf.Ring.Tail | src/logbuf.rs:33-39 | after any history, the last min(n, 500, count) kept lines, oldest first |
| LogBuf.LineWriter.Write | src/logbuf.rs:48-58 | pushes exactly the complete lines of partial + data that are valid UTF-8 and not blank, trimmed and in order, and keeps what follows the last newline; a line of text and its newline is kept exactly if it is valid |
| LogBuf.LineWriter.Position | src/logbuf.rs:51 | finds the first newline |
| LogBuf.LineWriter.Drop | src/logbuf.rs:64-74 | an unfinished line is kept on drop, trimmed, exactly if it is valid UTF-8 and not blank |
| LogBuf.KeptAreExactly | src/logbuf.rs:52-55 | the texts kept of any lines are those of exactly the valid lines with text, trimmed and in order |
| LogBuf.OneLineKept | src/logbuf.rs:51-55 | text and a newline are one line, kept as it is exactly if it is valid UTF-8 |
| LogBuf.TrimEmpty | src/logbuf.rs:19-23 | a line is blank once trimmed exactly if it holds nothing but newlines and returns |
| LogBuf.LinesCoverStream | src/logbuf.rs:49-57 | lines and rest put together are the stream |
| LogBuf.LinesEndOnce | src/logbuf.rs:51-52 | every split line ends with its only newline |
| LogBuf.RestIsUnfinished | src/logbuf.rs:51-57 | what stays behind holds no newline |
| LogBuf.SplitInTwo | src/logbuf.rs:49-57 | splitting a stream in two goes gives the same lines and the same rest |
| LogBuf.FragmentIndependent | src/logbuf.rs:48-58 | however a stream is cut into write calls, the kept lines and the rest are those of the concatenation |
| LogBuf.WriteAllAndDrop | src/logbuf.rs:48-74 | a writer's whole life keeps exactly the valid lines with text of the whole stream and its unfinished end, however it was cut |
| PluginExchange.Run | crates/collector-sdk/src/lib.rs:278-319 | what the SDK loop has written after reading its input |
| PluginExchange.OneLine | crates/collector-sdk/src/lib.rs:278-365 | what each further line adds: nothing for blanks, a refusal for a bad request, and otherwise the reply by operation and result, a subscription its batches first; each request is handled after those before it |
| PluginExchange.OneReplyEach | crates/collector-sdk/src/lib.rs:278-365 | on non-blank lines other than subscribe the k-th line written is the reply to the k-th line read |
| PluginExchange.Plugin.Exchange | src/plugins.rs:261-291 | one call, completed or aborted at any byte: spawn if needed, one request line, one reply line; on any failure the process is dropped, on an abort it is kept with what was written; outcome and process are given for every event |
| PluginExchange.AlwaysAnswerable | src/plugins.rs:270-274 | a sent request always leaves a reply to read |
| PluginExchange.CompletedKeepsSync | src/plugins.rs:261-291 | a completed call on a process that owes nothing returns the reply to its own request and again leaves nothing owed |
| PluginExchange.AnswersIffInSync | src/plugins.rs:266-274 | the reply read answers the request just sent exactly when nothing was owed and no line was left unfinished |
| PluginExchange.RepliesLagBehind | src/plugins.rs:266-274 | otherwise it answers the line sent as many lines earlier as replies are owed |
| PluginExchange.DebtIsOwed | src/collector.rs:111-113 | over every run, what a process owes is the calls aborted after their whole line since the last failure |
| PluginExchange.LockStepExact | src/plugins.rs:261-291 | in every run a reply answers its own call exactly when no aborted call since the last failure left a reply or a half line |
| PluginExchange.LockStep | src/plugins.rs:307-309 | in every run without calls aborted after their first byte, every reply answers its own call |
| PluginExchange.CancelledCallDesyncs | src/collector.rs:111-113 | a call aborted while it awaits its reply gives that reply to the next call |
| ModbusCodec.SplitJoin | src/control.rs:990-1009 | joining what was split gives the value, under both word orders |
| ModbusCodec.JoinSplit | src/control.rs:990-1009 | splitting what was joined gives the two registers |
| ModbusCodec.RawRoundTrip | src/control.rs:1012-1051 | decoding an encoded raw value gives it rounded and saturated to the datatype |
| ModbusCodec.StoredIs | src/control.rs:1012-1031 | the value stored for each datatype: the nearest integer, halves away from 0, or the end of its range |
| ModbusCodec.WordsAre | src/control.rs:990-1031 | the registers written for each datatype and word order, negative values in two's complement, and the error for any other name |
| ModbusCodec.RawIs | src/control.rs:1000-1051 | the value read from registers for each datatype and word order, any other name as unsigned 16 bits |
| ModbusCodec.MissingRegisters | src/control.rs:1000-1003 | missing registers read as 0 |
| ModbusCodec.ScalingIs | src/control.rs:912-930 | reading scales and offsets, writing inverts that, and divides by 1 at scale 0 |
| ModbusCodec.SaturatedRound | src/control.rs:1015-1025 | rounding and saturating gives the nearest integer in range and the nearer end outside |
| ModbusCodec.ReadBackAccuracy | src/control.rs:912-930 | over exact reals, for every integer datatype, word order and scale but 0, the read-back is within half a scale step of an in-range value and saturates outside |
| ModbusCodec.ReEncodeStable | src/control.rs:912-930 | writing the read-back value writes the same words exactly when the scale is not 0 or the raw value is stored as 0 |
| ModbusCodec.SameRawSameWords | src/control.rs:1012-1031 | two raw values are written as the same words exactly when they round and saturate alike |
| PssQuery.UrlEncode | src/pss.rs:316-327 | the loop percent-encodes byte by byte |
| PssQuery.DecodeEncode | src/pss.rs:316-327 | percent-decoding (section 2.1 of RFC 3986) is a left inverse on all byte strings |
| PssQuery.OneByte | src/pss.rs:316-327 | which bytes stay as they are, and the two upper-case digits of all others |
| PssQuery.EncodedAlphabet | src/pss.rs:316-327 | encoded text holds only unreserved characters (section 2.3 of RFC 3986) and the percent sign, so no separator |
| PssQuery.PathRoundTrip | src/pss.rs:110-117 | the query path splits back into exactly the non-empty list of variables |
| PssQuery.PathOfOne | src/pss.rs:110-117 | the path for one variable |
| PssQuery.PathGrows | src/pss.rs:110-117 | what each further variable adds to the path |

## Left out

- SQL errors and rollback other than the primary-key violation, WAL mode and power loss (`synchronous = NORMAL`): a transaction is atomic and durable here.
- gRPC, TLS, keep-alive and reconnect backoff, the agent id and send time of a batch, log throttling text, the JSON encoding of sample attributes.
- The bounded send queue of the stream: a sent batch is on its way at once.
- Streamer.BufferStreamer: the methods run without enqueues beside them, and so do the attempts that `DeliveryRounds` compares with runs; only `Delivery` interleaves enqueues with every step.
- Streamer.BufferStreamer.RunOneAttempt: the claim loop runs for ever; the method is observed for as many polls as it is given fresh batch ids.
- S7Client.Client.ReadArea: requires a chunk length above 0 once connected, without which the loop of the source does not end, and a buffer of at least one byte for a bit; the loop over the single bit element is written out as one step; the round-trip statistics are left out.
- S7Client.Client.WriteArea: the same preconditions as ReadArea; over faults a write that fails with an I/O error may have been executed, and its contract gives the memory by the loop alone.
- S7Client.WriteThenRead: both chunk lengths must be positive, that is the PDU length neither 18 nor 28.
- Buffer.BufferDb.Open: schema creation, pragmas and the migration that adds the origin column are taken as given.
- S7Sequence: bytes that are no reply of the PLC (`Garbled`) may come back in any exchange and stay unread like others, but the theorems on sequences leave them out.
- Connecting (TCP, ISO and COTP set-up, TSAPs), block lists and the raw `exchange` of the S7 client.
- OPC-UA sessions, identity, reading, writing and subscriptions; the display of node ids as text.
- LogBuf: UTF-8 validity is a parameter; the mutex and `flush` are left out.
- PluginExchange: a process that writes to its standard output on its own, a last line cut off by its exit, JSON itself (a parser is a parameter), blanks outside ASCII, write errors inside the SDK loop, and `subscribe` on a process of its own.
- PluginExchange.Plugin.Exchange: what the operating system, the process and an abort of the caller do arrives as one given event.
- ModbusCodec: the float32 format, rounding error of floating point, coils, and the connection to the device.
- PssQuery: HTTP, the XML reply, date parsing and history.
- Enrolment, configuration, tracing set-up, services, installers, self-update, signature checking, provisioning: plumbing, library calls or single-branch facts.
