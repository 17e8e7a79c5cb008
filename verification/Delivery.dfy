/**
 The delivery protocol of src/ingest_client.rs over the tables of src/buffer.rs, as a step relation
 over the whole system: database, streamer phase, the two channels of the gRPC stream and the
 ingest server. A run is any sequence of enabled actions.

 Assumptions built into the steps:
 - a new batch id was never used before (ULIDs are unique);
 - row ids are never reused (AUTOINCREMENT);
 - the server ingests a batch id at most once, answers Ok or Duplicate exactly for a batch it has
   ingested, and any other code only for one it has not;
 - a disconnect discards both channels of the old stream;
 - a committed transaction survives a crash of the agent.
 */
module Delivery {
  import opened Common
  import opened SampleTable
  import opened Buffer

  // ------------------------------------------------------------------- wire

  datatype Status = Ok | Duplicate | Rejected | Retry | Unspecified

  /** The integer status field of an ACK: a value of the enum, or one a newer server added. */
  datatype StatusCode = Known(status: Status) | Unknown(code: int)

  datatype Ack = Ack(batchId: Ulid, code: StatusCode)

  datatype SampleBatch = SampleBatch(batchId: Ulid, datasource: string, samples: seq<Sample>)

  /** A batch on the stream. `rows` is history: the row ids behind the samples, never sent. */
  datatype Message = Message(batch: SampleBatch, rows: seq<nat>)

  function Decode(code: StatusCode): Status {
    match code
    case Known(status) => status
    case Unknown(_) => Unspecified
  }

  /** A status is only ever applied to the batch the ACK names. */
  function ResolveAck(ack: Ack, inFlightId: Ulid): Option<Status> {
    if ack.batchId != inFlightId then None else Some(Decode(ack.code))
  }

  predicate Ingested(status: Status) { status.Ok? || status.Duplicate? }

  /** The statuses on which the buffer forgets the batch; the others return it to pending. */
  predicate Deletes(status: Status) { Ingested(status) || status.Rejected? }

  // ----------------------------------------------------------------- system

  datatype Config = Config(maxRows: nat, maxBatch: nat, datasource: string)

  datatype Phase =
    | Disconnected
    | Opened                                                            // stream open, recovery not read yet
    | Ready(todo: seq<ClaimedBatch>)                                    // next: send todo[0], or claim if empty
    | Waiting(batch: ClaimedBatch, todo: seq<ClaimedBatch>)             // sent, reading ACKs
    | Resolved(batch: ClaimedBatch, status: Status, todo: seq<ClaimedBatch>) // ACK read, buffer not updated yet

  /** One ingested sample; `row` is history. */
  datatype Entry = Entry(row: nat, batchId: Ulid, datasource: string, sample: Sample)

  datatype Server = Server(seen: set<Ulid>, log: seq<Entry>)

  /** What happened so far; no step reads it except to keep batch ids fresh. */
  datatype History = History(
    inserted: seq<Row>,               // the row with id i is inserted[i - 1]
    claims: map<Ulid, ClaimedBatch>,  // every batch ever claimed, as claimed
    delivered: set<nat>,
    rejected: set<nat>,
    evicted: set<nat>,
    evictedAtOpen: nat)

  datatype System = System(
    cfg: Config,
    db: Db,
    dropped: nat,
    phase: Phase,
    toServer: seq<Message>,
    acks: seq<Ack>,
    server: Server,
    hist: History)

  function Init(cfg: Config): System {
    System(cfg, EMPTY_DB, 0, Disconnected, [], [], Server({}, []), History([], map[], {}, {}, {}, 0))
  }

  // ------------------------------------------------------------------ steps

  datatype Action =
    | Enqueue(origin: Origin, samples: seq<Sample>)
    | Connect
    | Recover(order: seq<Ulid>)
    | Claim(batchId: Ulid, nowMs: int)
    | Send
    | ServerReply(code: StatusCode)
    | DuplicateAck(at: nat)
    | ReadAck(from: nat)  // any position: ACKs may arrive in any order
    | Settle
    | Disconnect
    | Crash

  function DatasourceOf(cfg: Config, origin: Origin): string {
    if origin == None then cfg.datasource else origin.value
  }

  function MessageOf(cfg: Config, rows: seq<Row>, b: ClaimedBatch): Message {
    Message(SampleBatch(b.batchId, DatasourceOf(cfg, b.origin), b.samples), IdList(Tagged(rows, Some(b.batchId))))
  }

  function Entries(m: Message): seq<Entry> {
    seq(|m.batch.samples|, i requires 0 <= i < |m.batch.samples| =>
      Entry(if i < |m.rows| then m.rows[i] else 0, m.batch.batchId, m.batch.datasource, m.batch.samples[i]))
  }

  /** The answers the server may give for batch id `b`. */
  predicate AnswerAllowed(server: Server, b: Ulid, code: StatusCode) {
    if b in server.seen then Ingested(Decode(code)) else Decode(code) != Duplicate
  }

  function Ingest(server: Server, m: Message, code: StatusCode): Server {
    if m.batch.batchId !in server.seen && Decode(code) == Ok
    then Server(server.seen + {m.batch.batchId}, server.log + Entries(m))
    else server
  }

  ghost predicate Enabled(s: System, a: Action) {
    match a
    case Enqueue(_, _) => true
    case Connect => s.phase == Disconnected
    case Recover(order) => s.phase == Opened && RecoveryOrder(order, s.db.inFlight)
    case Claim(b, _) =>
      s.phase == Ready([]) && NextClaim(s.db.rows, s.cfg.maxBatch) != [] && b !in s.hist.claims
    case Send => s.phase.Ready? && s.phase.todo != []
    case ServerReply(code) => s.toServer != [] && AnswerAllowed(s.server, s.toServer[0].batch.batchId, code)
    case DuplicateAck(i) => i < |s.acks|
    case ReadAck(i) => s.phase.Waiting? && i < |s.acks|
    case Settle => s.phase.Resolved?
    case Disconnect => s.phase != Disconnected
    case Crash => true
  }

  function EnqueueStep(s: System, origin: Origin, samples: seq<Sample>): System {
    if samples == [] then s
    else
      var victims := Victims(s.db.rows, |samples|, s.cfg.maxRows);
      s.(db := EnqueueDb(s.db, s.cfg.maxRows, origin, samples),
         dropped := s.dropped + |victims|,
         hist := s.hist.(inserted := s.hist.inserted + NewRows(s.db.nextId, origin, samples),
                         evicted := s.hist.evicted + Ids(victims)))
  }

  function ClaimStep(s: System, b: Ulid, nowMs: int): System {
    var db := ClaimDb(s.db, s.cfg.maxBatch, b, nowMs);
    var batch := BatchOf(db.rows, b);
    s.(db := db, phase := Ready([batch]), hist := s.hist.(claims := s.hist.claims[b := batch]))
  }

  function SettleStep(s: System): System
    requires s.phase.Resolved?
  {
    var b := s.phase.batch.batchId;
    var ids := Ids(Tagged(s.db.rows, Some(b)));
    var s' := s.(phase := Ready(s.phase.todo));
    match s.phase.status
    case Ok | Duplicate => s'.(db := AckOkDb(s.db, b), hist := s.hist.(delivered := s.hist.delivered + ids))
    case Rejected => s'.(db := AckOkDb(s.db, b), hist := s.hist.(rejected := s.hist.rejected + ids))
    case Retry | Unspecified => s'.(db := AckRetryDb(s.db, b))
  }

  function ReadAckStep(s: System, i: nat): System
    requires s.phase.Waiting? && i < |s.acks|
  {
    var s' := s.(acks := s.acks[..i] + s.acks[i + 1..]);
    match ResolveAck(s.acks[i], s.phase.batch.batchId)
    case Some(status) => s'.(phase := Resolved(s.phase.batch, status, s.phase.todo))
    case None => s'
  }

  ghost function Apply(s: System, a: Action): System
    requires Enabled(s, a)
  {
    match a
    case Enqueue(origin, samples) => EnqueueStep(s, origin, samples)
    case Connect => s.(phase := Opened)
    case Recover(order) => s.(phase := Ready(Recovered(s.db.rows, order)))
    case Claim(b, nowMs) => ClaimStep(s, b, nowMs)
    case Send =>
      s.(phase := Waiting(s.phase.todo[0], s.phase.todo[1..]),
         toServer := s.toServer + [MessageOf(s.cfg, s.db.rows, s.phase.todo[0])])
    case ServerReply(code) =>
      s.(toServer := s.toServer[1..],
         acks := s.acks + [Ack(s.toServer[0].batch.batchId, code)],
         server := Ingest(s.server, s.toServer[0], code))
    case DuplicateAck(i) => s.(acks := s.acks + [s.acks[i]])
    case ReadAck(i) => ReadAckStep(s, i)
    case Settle => SettleStep(s)
    case Disconnect => s.(phase := Disconnected, toServer := [], acks := [])
    case Crash =>
      s.(phase := Disconnected, toServer := [], acks := [], dropped := 0,
         hist := s.hist.(evictedAtOpen := |s.hist.evicted|))
  }

  /** `actions`, each enabled in turn, lead from `s` to `s'`. */
  ghost predicate Runs(s: System, actions: seq<Action>, s': System)
    decreases |actions|
  {
    if actions == [] then s' == s
    else Enabled(s, actions[0]) && Runs(Apply(s, actions[0]), actions[1..], s')
  }
}
