/** Every action keeps the invariant of the delivery protocol. */
module DeliverySteps {
  import opened Common
  import opened SampleTable
  import opened TableLaws
  import opened Buffer
  import opened Delivery
  import opened DeliverySafety

  // ---------------------------------------------------------------- enqueue

  lemma IdsCount(rows: seq<Row>)
    requires Sorted(rows)
    ensures |Ids(rows)| == |rows|
  {
    if rows != [] {
      var rest := rows[1..];
      assert Sorted(rest);
      IdsCount(rest);
      assert Ids(rows) == {rows[0].id} + Ids(rest);
    }
  }

  /** What an enqueue leaves alone. */
  ghost predicate EnqueueLeaves(db: Db, db': Db, added: seq<Row>) {
    && Valid(db')
    && db'.inFlight == db.inFlight
    && db'.nextId == db.nextId + |added|
    && (forall b :: Tagged(db'.rows, Some(b)) == Tagged(db.rows, Some(b)))
  }

  /** Which rows an enqueue takes and adds. */
  ghost predicate EnqueueMoves(db: Db, db': Db, victims: seq<Row>, added: seq<Row>) {
    && (forall i :: 0 <= i < |added| ==> added[i].id == db.nextId + i && added[i].batch == None)
    && Sorted(victims)
    && (forall v :: v in victims ==> v in db.rows && v.batch == None)
    && (forall r :: r in db'.rows <==> (r in db.rows && r !in victims) || r in added)
  }

  /** The tables after an enqueue, by membership. */
  ghost predicate EnqueueRows(db: Db, db': Db, victims: seq<Row>, added: seq<Row>) {
    EnqueueLeaves(db, db', added) && EnqueueMoves(db, db', victims, added)
  }

  /** The enqueue step as its invariant proofs use it. */
  ghost predicate EnqueueSpec(s: System, s': System, victims: seq<Row>, added: seq<Row>) {
    && EnqueueRows(s.db, s'.db, victims, added)
    && s' == s.(db := s'.db, dropped := s.dropped + |victims|,
                hist := s.hist.(inserted := s.hist.inserted + added, evicted := s.hist.evicted + Ids(victims)))
  }

  lemma EnqueueMeetsRows(db: Db, maxRows: nat, origin: Origin, samples: seq<Sample>)
    requires Valid(db) && samples != []
    ensures EnqueueRows(db, EnqueueDb(db, maxRows, origin, samples), Victims(db.rows, |samples|, maxRows),
                        NewRows(db.nextId, origin, samples))
  {
    var db' := EnqueueDb(db, maxRows, origin, samples);
    var victims := Victims(db.rows, |samples|, maxRows);
    var added := NewRows(db.nextId, origin, samples);
    assert EnqueueLeaves(db, db', added) by {
      EnqueueEffect(db, maxRows, origin, samples);
    }
    assert EnqueueMoves(db, db', victims, added) by {
      VictimsFacts(db.rows, |samples|, maxRows);
      EvictionExact(db, maxRows, origin, samples);
    }
  }

  lemma EnqueueMeetsSpec(s: System, origin: Origin, samples: seq<Sample>)
    requires Valid(s.db) && samples != []
    ensures EnqueueSpec(s, EnqueueStep(s, origin, samples), Victims(s.db.rows, |samples|, s.cfg.maxRows),
                        NewRows(s.db.nextId, origin, samples))
  {
    EnqueueMeetsRows(s.db, s.cfg.maxRows, origin, samples);
  }

  lemma EnqueueTable(s: System, s': System, victims: seq<Row>, added: seq<Row>)
    requires TableInv(s) && EnqueueSpec(s, s', victims, added)
    ensures TableInv(s')
  {
    forall r | r in s'.db.rows ensures s'.hist.inserted[r.id - 1] == r.(batch := None) {
      if r !in added {
        assert r in s.db.rows;
      }
    }
  }

  lemma EnqueueBatches(s: System, s': System, victims: seq<Row>, added: seq<Row>)
    requires BatchInv(s) && EnqueueSpec(s, s', victims, added)
    ensures BatchInv(s')
  {
  }

  lemma EnqueueOrder(s: System, s': System, victims: seq<Row>, added: seq<Row>)
    requires Valid(s.db) && OrderInv(s) && EnqueueSpec(s, s', victims, added)
    ensures OrderInv(s')
  {
  }

  lemma EnqueueChannels(s: System, s': System, victims: seq<Row>, added: seq<Row>)
    requires PhaseInv(s) && ChannelInv(s) && EnqueueSpec(s, s', victims, added)
    ensures PhaseInv(s') && ChannelInv(s')
  {
  }

  lemma EnqueueLog(s: System, s': System, victims: seq<Row>, added: seq<Row>)
    requires TableInv(s) && LogInv(s) && EnqueueSpec(s, s', victims, added)
    ensures LogInv(s')
  {
    EnqueueKeepsEntries(s, s', added);
    EnqueueKeepsLogRows(s, s', victims, added);
  }

  /** The log is about rows inserted earlier, which stay as recorded. */
  lemma EnqueueKeepsEntries(s: System, s': System, added: seq<Row>)
    requires LogFaithful(s) && OriginOrder(s.hist.inserted, s.server.log)
    requires s'.server == s.server && s'.cfg == s.cfg && s'.db.nextId >= s.db.nextId
    requires s'.hist.inserted == s.hist.inserted + added
    ensures LogFaithful(s') && OriginOrder(s'.hist.inserted, s'.server.log)
    ensures forall e :: e in s.server.log ==> s'.hist.inserted[e.row - 1] == s.hist.inserted[e.row - 1]
  {
  }

  lemma EnqueueKeepsLogRows(s: System, s': System, victims: seq<Row>, added: seq<Row>)
    requires LogInv(s) && EnqueueSpec(s, s', victims, added)
    ensures forall r :: r in s'.db.rows ==>
              (r.id in LogIds(s.server.log) <==> r.batch.Some? && r.batch.value in s.server.seen)
    ensures forall e, p :: e in s.server.log && p in s'.db.rows && p.id !in LogIds(s.server.log)
                           && s.hist.inserted[e.row - 1].origin == p.origin
                           ==> e.row < p.id
  {
    forall r | r in s'.db.rows
      ensures r.id in LogIds(s.server.log) <==> r.batch.Some? && r.batch.value in s.server.seen
    {
      if r !in s.db.rows {
        assert r in added;
      }
    }
    forall e, p | e in s.server.log && p in s'.db.rows && p.id !in LogIds(s.server.log)
                  && s.hist.inserted[e.row - 1].origin == p.origin
      ensures e.row < p.id
    {
      if p !in s.db.rows {
        assert p in added;
      }
    }
  }

  lemma EnqueueHistory(s: System, s': System, victims: seq<Row>, added: seq<Row>)
    requires Valid(s.db) && HistoryInv(s) && LogInv(s) && EnqueueSpec(s, s', victims, added)
    ensures HistoryInv(s')
  {
    EnqueueConserves(s, s', victims, added);
    assert |Ids(victims)| == |victims| by {
      IdsCount(victims);
    }
    assert Ids(victims) !! s.hist.evicted by {
      assert Ids(victims) <= Ids(s.db.rows);
    }
    assert forall v :: v in victims ==> v.id !in LogIds(s.server.log);
  }

  lemma EnqueueConserves(s: System, s': System, victims: seq<Row>, added: seq<Row>)
    requires Valid(s.db) && Conserved(s) && EnqueueSpec(s, s', victims, added)
    ensures Conserved(s')
  {
    EnqueueIds(s, s', victims, added);
    assert Ids(victims) <= Ids(s.db.rows);
  }

  lemma EnqueueIds(s: System, s': System, victims: seq<Row>, added: seq<Row>)
    requires Valid(s.db) && EnqueueSpec(s, s', victims, added)
    ensures Ids(s'.db.rows) == (Ids(s.db.rows) - Ids(victims)) + Ids(added)
    ensures forall id :: id in Ids(added) <==> s.db.nextId <= id < s'.db.nextId
  {
    forall r | r in s.db.rows && r !in victims ensures r.id !in Ids(victims) {
      if v :| v in victims && v.id == r.id {
        IdUnique(s.db.rows, r, v);
      }
    }
    forall id | s.db.nextId <= id < s'.db.nextId ensures id in Ids(added) {
      assert added[id - s.db.nextId] in added;
    }
  }

  // ------------------------------------------------------------------ claim

  ghost predicate ClaimSpec(s: System, s': System, claim: seq<Row>, b: Ulid, nowMs: int) {
    && Valid(s'.db)
    && s.phase == Ready([]) && b !in s.hist.claims
    && s' == s.(db := s'.db, phase := Ready([BatchOf(s'.db.rows, b)]),
                hist := s.hist.(claims := s.hist.claims[b := BatchOf(s'.db.rows, b)]))
    && s'.db.inFlight == s.db.inFlight[b := nowMs]
    && s'.db.nextId == s.db.nextId
    && 0 < |claim| <= s.cfg.maxBatch
    && |Tagged(s'.db.rows, Some(b))| == |claim|
    && (forall r :: r in claim ==> r in s.db.rows && r.batch == None && r.origin == claim[0].origin)
    && (forall r, p :: r in claim && p in s.db.rows && p.batch == None && p.origin == claim[0].origin && p !in claim
                       ==> r.id < p.id)
    && (forall x :: x in s'.db.rows <==>
          (x in s.db.rows && x !in claim) || (x.batch == Some(b) && x.(batch := None) in claim))
  }

  lemma ClaimMeetsSpec(s: System, b: Ulid, nowMs: int)
    requires TableInv(s) && BatchInv(s) && Enabled(s, Action.Claim(b, nowMs))
    ensures ClaimSpec(s, ClaimStep(s, b, nowMs), NextClaim(s.db.rows, s.cfg.maxBatch), b, nowMs)
  {
    var claim := NextClaim(s.db.rows, s.cfg.maxBatch);
    NextClaimFacts(s.db.rows, s.cfg.maxBatch);
    ClaimMembership(s.db.rows, s.cfg.maxBatch, b);
    ClaimKeepsValid(s.db, s.cfg.maxBatch, b, nowMs);
  }

  /** Every row after a claim is a row from before it, but for its batch id. */
  ghost predicate SameButTag(rows: seq<Row>, rows': seq<Row>) {
    forall x :: x in rows' ==> x in rows || x.(batch := None) in rows
  }

  lemma ClaimOnlyTags(s: System, s': System, claim: seq<Row>, b: Ulid, nowMs: int)
    requires ClaimSpec(s, s', claim, b, nowMs)
    ensures SameButTag(s.db.rows, s'.db.rows)
  {
  }

  /** Every row is as it was inserted, but for its batch id. */
  ghost predicate AsInserted(inserted: seq<Row>, rows: seq<Row>) {
    forall r :: r in rows ==> 1 <= r.id <= |inserted| && inserted[r.id - 1] == r.(batch := None)
  }

  lemma TableAsInserted(s: System)
    requires TableInv(s)
    ensures AsInserted(s.hist.inserted, s.db.rows)
  {
  }

  lemma ClaimedRowsMatch(inserted: seq<Row>, rows: seq<Row>, rows': seq<Row>)
    requires AsInserted(inserted, rows) && SameButTag(rows, rows')
    ensures AsInserted(inserted, rows')
  {
    forall r | r in rows' ensures 1 <= r.id <= |inserted| && inserted[r.id - 1] == r.(batch := None) {
      if r !in rows {
        var was := r.(batch := None);
        assert was in rows && was.(batch := None) == was;
      }
    }
  }

  lemma ClaimTable(s: System, s': System, claim: seq<Row>, b: Ulid, nowMs: int)
    requires TableInv(s) && ClaimSpec(s, s', claim, b, nowMs)
    ensures TableInv(s')
  {
    TableAsInserted(s);
    ClaimOnlyTags(s, s', claim, b, nowMs);
    ClaimedRowsMatch(s.hist.inserted, s.db.rows, s'.db.rows);
  }

  lemma ClaimBatches(s: System, s': System, claim: seq<Row>, b: Ulid, nowMs: int)
    requires BatchInv(s) && PhaseInv(s) && ClaimSpec(s, s', claim, b, nowMs)
    ensures BatchInv(s') && PhaseInv(s')
  {
    assert s.db.inFlight == map[];
  }

  lemma ClaimChannels(s: System, s': System, claim: seq<Row>, b: Ulid, nowMs: int)
    requires PhaseInv(s) && ChannelInv(s) && ClaimSpec(s, s', claim, b, nowMs)
    ensures ChannelInv(s')
  {
    assert s.db.inFlight == map[];
  }

  lemma NothingClaimed(s: System)
    requires Valid(s.db) && s.db.inFlight == map[]
    ensures forall r :: r in s.db.rows ==> r.batch == None
  {
  }

  lemma ClaimOrder(s: System, s': System, claim: seq<Row>, b: Ulid, nowMs: int)
    requires Valid(s.db) && PhaseInv(s) && ClaimSpec(s, s', claim, b, nowMs)
    ensures OrderInv(s')
  {
    NothingClaimed(s);
    forall r, p | r in s'.db.rows && p in s'.db.rows && r.batch.Some? && p.batch == None && r.origin == p.origin
      ensures r.id < p.id
    {
      assert r.(batch := None) in claim;
      assert p in s.db.rows && p !in claim;
    }
  }

  lemma ClaimLog(s: System, s': System, claim: seq<Row>, b: Ulid, nowMs: int)
    requires Valid(s.db) && PhaseInv(s) && LogInv(s) && ClaimSpec(s, s', claim, b, nowMs)
    ensures LogInv(s')
  {
    NothingClaimed(s);
    assert LogFaithful(s');
    assert forall r :: r in s.db.rows ==> r.id !in LogIds(s.server.log);
    assert forall r :: r in s'.db.rows ==> r.(batch := None) in s.db.rows;
  }

  lemma ClaimIds(s: System, s': System, claim: seq<Row>, b: Ulid, nowMs: int)
    requires ClaimSpec(s, s', claim, b, nowMs)
    ensures Ids(s'.db.rows) == Ids(s.db.rows)
  {
    forall r | r in s.db.rows ensures r.id in Ids(s'.db.rows) {
      if r in claim {
        assert r == r.(batch := Some(b)).(batch := None);
        assert r.(batch := Some(b)) in s'.db.rows;
      }
    }
    forall r | r in s'.db.rows ensures r.id in Ids(s.db.rows) {
      assert r in s.db.rows || r.(batch := None) in s.db.rows;
    }
  }

  // ----------------------------------------------------------------- settle

  ghost predicate RemoveSpec(s: System, s': System, b: Ulid) {
    && Valid(s'.db)
    && s'.cfg == s.cfg && s'.server == s.server && s'.acks == s.acks && s'.toServer == s.toServer
    && s'.dropped == s.dropped
    && s'.hist.inserted == s.hist.inserted && s'.hist.claims == s.hist.claims
    && s'.hist.evicted == s.hist.evicted && s'.hist.evictedAtOpen == s.hist.evictedAtOpen
    && s.phase.Resolved? && b == s.phase.batch.batchId && s'.phase == Ready(s.phase.todo)
    && s'.db.nextId == s.db.nextId && s'.db.inFlight == s.db.inFlight - {b}
    && (forall x :: x in s'.db.rows <==> x in s.db.rows && x.batch != Some(b))
  }

  lemma RemoveMeetsSpec(s: System)
    requires Valid(s.db) && s.phase.Resolved? && Deletes(s.phase.status)
    ensures RemoveSpec(s, SettleStep(s), s.phase.batch.batchId)
  {
    assert Valid(AckOkDb(s.db, s.phase.batch.batchId)) by {
      AckOkEffect(s.db, s.phase.batch.batchId);
    }
  }

  lemma RemoveKeeps(s: System, s': System, b: Ulid)
    requires RemoveSpec(s, s', b)
    requires TableInv(s) && BatchInv(s) && PhaseInv(s) && ChannelInv(s) && OrderInv(s)
    ensures TableInv(s') && BatchInv(s') && PhaseInv(s') && ChannelInv(s') && OrderInv(s')
  {
    assert s'.db.inFlight == map[];
  }

  lemma RemoveLog(s: System, s': System, b: Ulid)
    requires RemoveSpec(s, s', b) && LogInv(s)
    ensures LogInv(s')
  {
    assert LogFaithful(s');
  }

  lemma RemoveIds(s: System, s': System, b: Ulid)
    requires RemoveSpec(s, s', b) && Valid(s.db)
    ensures Ids(s'.db.rows) == Ids(s.db.rows) - Ids(Tagged(s.db.rows, Some(b)))
    ensures Ids(Tagged(s.db.rows, Some(b))) <= Ids(s.db.rows)
  {
    forall x, y | x in s'.db.rows && y in Tagged(s.db.rows, Some(b)) ensures x.id != y.id {
      if x.id == y.id {
        IdUnique(s.db.rows, x, y);
      }
    }
  }

  lemma RemoveHistory(s: System, s': System)
    requires TableInv(s) && PhaseInv(s) && LogInv(s) && HistoryInv(s)
    requires s.phase.Resolved? && Deletes(s.phase.status) && s' == SettleStep(s)
    requires RemoveSpec(s, s', s.phase.batch.batchId)
    ensures HistoryInv(s')
  {
    var b := s.phase.batch.batchId;
    RemoveIds(s, s', b);
    var ids := Ids(Tagged(s.db.rows, Some(b)));
    if Ingested(s.phase.status) {
      assert ids <= LogIds(s.server.log);
    } else {
      assert ids !! LogIds(s.server.log);
    }
  }

  ghost predicate ReturnSpec(s: System, s': System, b: Ulid) {
    && Valid(s'.db)
    && s.phase.Resolved? && b == s.phase.batch.batchId
    && s' == s.(phase := Ready(s.phase.todo), db := s'.db)
    && s'.db.nextId == s.db.nextId && s'.db.inFlight == s.db.inFlight - {b}
    && (forall x :: x in s'.db.rows <==>
          (x in s.db.rows && x.batch != Some(b)) || (x.batch == None && x.(batch := Some(b)) in s.db.rows))
  }

  lemma ReturnMeetsSpec(s: System)
    requires Valid(s.db) && s.phase.Resolved? && !Deletes(s.phase.status)
    ensures ReturnSpec(s, SettleStep(s), s.phase.batch.batchId)
  {
    AckRetryEffect(s.db, s.phase.batch.batchId);
  }

  lemma ReturnKeeps(s: System, s': System, b: Ulid)
    requires ReturnSpec(s, s', b)
    requires TableInv(s) && BatchInv(s) && PhaseInv(s) && ChannelInv(s)
    ensures TableInv(s') && BatchInv(s') && PhaseInv(s') && ChannelInv(s') && OrderInv(s')
  {
    assert s'.db.inFlight == map[];
    NothingClaimed(s');
    TableAsInserted(s);
    ReturnedRowsMatch(s.hist.inserted, s.db.rows, s'.db.rows, b);
  }

  lemma ReturnedRowsMatch(inserted: seq<Row>, rows: seq<Row>, rows': seq<Row>, b: Ulid)
    requires AsInserted(inserted, rows)
    requires forall x :: x in rows' ==> x in rows || (x.batch == None && x.(batch := Some(b)) in rows)
    ensures AsInserted(inserted, rows')
  {
    forall r | r in rows' ensures 1 <= r.id <= |inserted| && inserted[r.id - 1] == r.(batch := None) {
      if r !in rows {
        assert r == r.(batch := Some(b)).(batch := None);
      }
    }
  }

  lemma ReturnLog(s: System, s': System, b: Ulid)
    requires ReturnSpec(s, s', b)
    requires TableInv(s) && PhaseInv(s) && LogInv(s) && !Ingested(s.phase.status)
    ensures LogInv(s')
  {
    assert LogFaithful(s');
    forall r | r in s'.db.rows && !(r in s.db.rows && r.batch != Some(b)) ensures r.id !in LogIds(s.server.log) {
      assert r.(batch := Some(b)) in s.db.rows;
    }
  }

  lemma ReturnIds(s: System, s': System, b: Ulid)
    requires ReturnSpec(s, s', b)
    ensures Ids(s'.db.rows) == Ids(s.db.rows)
  {
    forall r | r in s.db.rows ensures r.id in Ids(s'.db.rows) {
      if r.batch == Some(b) {
        assert r == r.(batch := None).(batch := Some(b));
        assert r.(batch := None) in s'.db.rows;
      }
    }
    forall r | r in s'.db.rows ensures r.id in Ids(s.db.rows) {
      assert r in s.db.rows || r.(batch := Some(b)) in s.db.rows;
    }
  }

  // ---------------------------------------------------- recover, send, server

  lemma SamePlace(order: seq<Ulid>, inFlight: map<Ulid, int>, i: nat, j: nat)
    requires RecoveryOrder(order, inFlight) && i < |order| && j < |order|
    requires forall b, c :: b in inFlight && c in inFlight ==> b == c
    ensures i == j
  {
    assert order[i] in order && order[j] in order;
  }

  lemma RecoverKeeps(s: System, order: seq<Ulid>)
    requires PhaseInv(s) && BatchInv(s) && ChannelInv(s) && Enabled(s, Action.Recover(order))
    ensures PhaseInv(Apply(s, Action.Recover(order))) && ChannelInv(Apply(s, Action.Recover(order)))
  {
    if |order| > 1 {
      SamePlace(order, s.db.inFlight, 0, 1);
    }
    assert forall b :: b in s.db.inFlight ==> b in order;
  }

  lemma SendKeeps(s: System)
    requires PhaseInv(s) && BatchInv(s) && ChannelInv(s) && Enabled(s, Send)
    ensures PhaseInv(Apply(s, Send)) && ChannelInv(Apply(s, Send))
  {
  }

  lemma ReadAckKeeps(s: System, i: nat)
    requires PhaseInv(s) && ChannelInv(s) && Enabled(s, ReadAck(i))
    ensures PhaseInv(ReadAckStep(s, i)) && ChannelInv(ReadAckStep(s, i))
  {
    assert s.acks[i] in s.acks;
  }

  lemma LinkActionKeeps(s: System, a: Action)
    requires PhaseInv(s) && BatchInv(s) && ChannelInv(s) && Enabled(s, a)
    requires a.Connect? || a.Recover? || a.Send? || a.DuplicateAck? || a.ReadAck? || a.Disconnect?
    ensures PhaseInv(Apply(s, a)) && ChannelInv(Apply(s, a))
  {
    match a
    case Recover(order) => RecoverKeeps(s, order);
    case Send => SendKeeps(s);
    case ReadAck(i) => ReadAckKeeps(s, i);
    case DuplicateAck(i) => assert s.acks[i] in s.acks;
    case Connect | Disconnect =>
  }

  lemma ReplyChannels(s: System, code: StatusCode)
    requires PhaseInv(s) && BatchInv(s) && ChannelInv(s) && Enabled(s, ServerReply(code))
    ensures PhaseInv(Apply(s, ServerReply(code))) && ChannelInv(Apply(s, ServerReply(code)))
  {
    assert s.toServer[0] in s.toServer;
  }

  /** `es` are the entries of the rows `own` of batch `b`, one for one. */
  ghost predicate EntriesMatch(s: System, b: Ulid, own: seq<Row>, es: seq<Entry>) {
    && |es| == |own|
    && Sorted(own)
    && (forall r :: r in own <==> r in s.db.rows && r.batch == Some(b))
    && (forall i :: 0 <= i < |es| ==>
          es[i] == Entry(own[i].id, b, DatasourceOf(s.cfg, own[i].origin), own[i].sample))
  }

  /** What the server appends for the batch in flight: its rows, in id order. */
  lemma EntriesOf(s: System)
    requires TableInv(s) && PhaseInv(s) && s.phase.Waiting?
    ensures EntriesMatch(s, s.phase.batch.batchId, Tagged(s.db.rows, Some(s.phase.batch.batchId)),
                         Entries(MessageOf(s.cfg, s.db.rows, s.phase.batch)))
  {
    var own := Tagged(s.db.rows, Some(s.phase.batch.batchId));
    TaggedSorted(s.db.rows);
    forall i | 0 <= i < |own| ensures own[i].origin == own[0].origin {
      assert own[i] in own && own[0] in own;
    }
  }

  lemma AppendKeepsOrder(inserted: seq<Row>, log: seq<Entry>, es: seq<Entry>)
    requires forall e :: e in log ==> 1 <= e.row <= |inserted|
    requires forall e :: e in es ==> 1 <= e.row <= |inserted|
    requires OriginOrder(inserted, log)
    requires forall i, j :: 0 <= i < j < |es| ==> es[i].row < es[j].row
    requires forall e, f :: e in log && f in es && inserted[e.row - 1].origin == inserted[f.row - 1].origin
                            ==> e.row < f.row
    ensures OriginOrder(inserted, log + es)
  {
    var all := log + es;
    forall i, j | 0 <= i < j < |all| && inserted[all[i].row - 1].origin == inserted[all[j].row - 1].origin
      ensures all[i].row < all[j].row
    {
      if j < |log| {
        assert all[i] == log[i] && all[j] == log[j];
      } else if i < |log| {
        assert all[i] in log && all[j] in es;
      } else {
        assert es[i - |log|].row < es[j - |log|].row;
      }
    }
  }

  lemma BatchEntries(s: System, own: seq<Row>, es: seq<Entry>)
    requires s.phase.Waiting? && EntriesMatch(s, s.phase.batch.batchId, own, es)
    ensures forall i, j :: 0 <= i < j < |es| ==> es[i].row < es[j].row
    ensures forall e :: e in es ==> FromBatch(s, e)
    ensures forall r :: r in s.db.rows && r.batch == Some(s.phase.batch.batchId) ==> r.id in LogIds(es)
  {
    forall k | 0 <= k < |es| ensures FromBatch(s, es[k]) {
      assert own[k] in own;
    }
    forall r | r in own ensures r.id in LogIds(es) {
      var k :| 0 <= k < |own| && own[k] == r;
      assert es[k] in es && es[k].row == r.id;
    }
  }

  /** `e` is the entry of a row of the batch in flight. */
  ghost predicate FromBatch(s: System, e: Entry)
    requires s.phase.Waiting?
  {
    exists r :: && r in s.db.rows && r.batch == Some(s.phase.batch.batchId)
                && e == Entry(r.id, s.phase.batch.batchId, DatasourceOf(s.cfg, r.origin), r.sample)
  }

  /** `e` carries the sample and datasource of the row it is about. */
  ghost predicate Recorded(s: System, e: Entry, b: Ulid) {
    && 1 <= e.row <= |s.hist.inserted| && e.batchId == b
    && s.hist.inserted[e.row - 1].sample == e.sample
    && e.datasource == DatasourceOf(s.cfg, s.hist.inserted[e.row - 1].origin)
  }

  /** `row` comes after everything in the log of its origin. */
  ghost predicate AboveLog(inserted: seq<Row>, log: seq<Entry>, row: nat, origin: Origin) {
    forall f :: f in log && 1 <= f.row <= |inserted| && inserted[f.row - 1].origin == origin ==> f.row < row
  }

  /** `row` is none of the rows outside batch `b`, and comes before those of its origin. */
  ghost predicate BelowOthers(rows: seq<Row>, b: Ulid, row: nat, origin: Origin) {
    forall p :: p in rows && p.batch != Some(b) ==> row != p.id && (p.origin == origin ==> row < p.id)
  }

  /** `e` is new to the log, carries an inserted sample, and fits between log and other rows. */
  ghost predicate Fits(s: System, e: Entry)
    requires s.phase.Waiting?
  {
    && Recorded(s, e, s.phase.batch.batchId)
    && AboveLog(s.hist.inserted, s.server.log, e.row, s.hist.inserted[e.row - 1].origin)
    && BelowOthers(s.db.rows, s.phase.batch.batchId, e.row, s.hist.inserted[e.row - 1].origin)
  }

  lemma OthersPending(s: System)
    requires TableInv(s) && BatchInv(s) && PhaseInv(s) && s.phase.Waiting?
    ensures forall p :: p in s.db.rows && p.batch != Some(s.phase.batch.batchId) ==> p.batch == None
  {
    forall p | p in s.db.rows && p.batch.Some? ensures p.batch == Some(s.phase.batch.batchId) {
      assert p.batch.value in s.db.inFlight;
    }
  }

  /** A row of a batch the server has not seen comes after everything ingested from its origin. */
  lemma RowAfterLog(s: System, r: Row)
    requires LogInv(s) && r in s.db.rows && r.batch.Some? && r.batch.value !in s.server.seen
    ensures AboveLog(s.hist.inserted, s.server.log, r.id, r.origin)
  {
    assert r.id !in LogIds(s.server.log);
  }

  lemma RowBeforeOthers(s: System, r: Row, b: Ulid)
    requires Sorted(s.db.rows) && OrderInv(s) && r in s.db.rows && r.batch == Some(b)
    requires forall p :: p in s.db.rows && p.batch != Some(b) ==> p.batch == None
    ensures BelowOthers(s.db.rows, b, r.id, r.origin)
  {
    forall p | p in s.db.rows && p.batch != Some(b) ensures r.id != p.id {
      if r.id == p.id {
        IdUnique(s.db.rows, r, p);
      }
    }
  }

  lemma RowFits(s: System, e: Entry, r: Row)
    requires s.phase.Waiting?
    requires e == Entry(r.id, s.phase.batch.batchId, DatasourceOf(s.cfg, r.origin), r.sample)
    requires 1 <= r.id <= |s.hist.inserted| && s.hist.inserted[r.id - 1] == r.(batch := None)
    requires AboveLog(s.hist.inserted, s.server.log, r.id, r.origin)
    requires BelowOthers(s.db.rows, s.phase.batch.batchId, r.id, r.origin)
    ensures Fits(s, e)
  {
  }

  lemma FromBatchFits(s: System, e: Entry)
    requires TableInv(s) && BatchInv(s) && PhaseInv(s) && LogInv(s) && OrderInv(s)
    requires s.phase.Waiting? && s.phase.batch.batchId !in s.server.seen && FromBatch(s, e)
    ensures Fits(s, e)
  {
    var r :| r in s.db.rows && r.batch == Some(s.phase.batch.batchId)
             && e == Entry(r.id, s.phase.batch.batchId, DatasourceOf(s.cfg, r.origin), r.sample);
    OthersPending(s);
    RowAfterLog(s, r);
    RowBeforeOthers(s, r, s.phase.batch.batchId);
    RowFits(s, e, r);
  }

  /** The entries of the batch in flight all fit. */
  lemma BatchFits(s: System, es: seq<Entry>)
    requires TableInv(s) && BatchInv(s) && PhaseInv(s) && LogInv(s) && OrderInv(s) && s.phase.Waiting?
    requires s.phase.batch.batchId !in s.server.seen
    requires es == Entries(MessageOf(s.cfg, s.db.rows, s.phase.batch))
    ensures forall e :: e in es ==> Fits(s, e)
    ensures forall i, j :: 0 <= i < j < |es| ==> es[i].row < es[j].row
    ensures forall r :: r in s.db.rows && r.batch == Some(s.phase.batch.batchId) ==> r.id in LogIds(es)
  {
    EntriesOf(s);
    BatchEntries(s, Tagged(s.db.rows, Some(s.phase.batch.batchId)), es);
    forall e | e in es ensures Fits(s, e) {
      FromBatchFits(s, e);
    }
  }

  /** Ingesting the batch in flight appends entries above everything ingested for its origin. */
  lemma IngestLog(s: System, s': System, es: seq<Entry>)
    requires LogInv(s) && TableInv(s) && s.phase.Waiting? && s.phase.batch.batchId in s.hist.claims
    requires forall e :: e in es ==> Fits(s, e)
    requires forall i, j :: 0 <= i < j < |es| ==> es[i].row < es[j].row
    requires forall r :: r in s.db.rows && r.batch == Some(s.phase.batch.batchId) ==> r.id in LogIds(es)
    requires s'.server == Server(s.server.seen + {s.phase.batch.batchId}, s.server.log + es)
    requires s'.db == s.db && s'.hist == s.hist && s'.cfg == s.cfg
    ensures LogInv(s')
  {
    IngestedOrder(s, s', es);
    IngestedRows(s, s', es);
  }

  lemma IngestedOrder(s: System, s': System, es: seq<Entry>)
    requires s.phase.Waiting? && LogInv(s) && TableInv(s)
    requires forall e :: e in es ==> Fits(s, e)
    requires forall i, j :: 0 <= i < j < |es| ==> es[i].row < es[j].row
    requires s'.server == Server(s.server.seen + {s.phase.batch.batchId}, s.server.log + es)
    requires s'.db == s.db && s'.hist == s.hist && s'.cfg == s.cfg
    ensures LogFaithful(s') && OriginOrder(s'.hist.inserted, s'.server.log)
  {
    AppendKeepsOrder(s.hist.inserted, s.server.log, es);
  }

  lemma IngestedRows(s: System, s': System, es: seq<Entry>)
    requires s.phase.Waiting? && LogInv(s) && TableInv(s)
    requires forall e :: e in es ==> Fits(s, e)
    requires forall r :: r in s.db.rows && r.batch == Some(s.phase.batch.batchId) ==> r.id in LogIds(es)
    requires s'.server == Server(s.server.seen + {s.phase.batch.batchId}, s.server.log + es)
    requires s'.db == s.db && s'.hist == s.hist
    ensures forall r :: r in s.db.rows ==>
                          (r.id in LogIds(s'.server.log) <==> r.batch.Some? && r.batch.value in s'.server.seen)
    ensures forall e, p :: e in s'.server.log && p in s.db.rows && p.id !in LogIds(s'.server.log)
                           && 1 <= e.row <= |s.hist.inserted|
                           && s.hist.inserted[e.row - 1].origin == p.origin
                           ==> e.row < p.id
  {
    assert LogIds(s'.server.log) == LogIds(s.server.log) + LogIds(es);
    forall r | r in s.db.rows ensures r.id in LogIds(es) <==> r.batch == Some(s.phase.batch.batchId) {
    }
    forall e, p | e in s'.server.log && p in s.db.rows && p.id !in LogIds(s'.server.log)
                  && 1 <= e.row <= |s.hist.inserted|
                  && s.hist.inserted[e.row - 1].origin == p.origin
      ensures e.row < p.id
    {
      if e in es {
        assert p.batch != Some(s.phase.batch.batchId);
      }
    }
  }
}
