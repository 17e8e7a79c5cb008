/** Safety of the delivery protocol in every reachable state. */
module DeliverySafety {
  import opened Common
  import opened SampleTable
  import opened Delivery

  function LogIds(log: seq<Entry>): set<nat> { set e | e in log :: e.row }

  // -------------------------------------------------------------- invariant

  ghost predicate TableInv(s: System) {
    && Valid(s.db)
    && |s.hist.inserted| == s.db.nextId - 1
    && (forall i :: 0 <= i < |s.hist.inserted| ==> s.hist.inserted[i].id == i + 1 && s.hist.inserted[i].batch == None)
    && (forall r :: r in s.db.rows ==> s.hist.inserted[r.id - 1] == r.(batch := None))
  }

  /** Lock-step: at most one batch in flight, still exactly what was claimed. */
  ghost predicate BatchInv(s: System) {
    && s.cfg.maxBatch > 0
    && (forall b, c :: b in s.db.inFlight && c in s.db.inFlight ==> b == c)
    && (forall b :: b in s.db.inFlight ==>
          && b in s.hist.claims
          && BatchOf(s.db.rows, b) == s.hist.claims[b]
          && |Tagged(s.db.rows, Some(b))| <= s.cfg.maxBatch)
  }

  ghost predicate IsCurrent(s: System, b: ClaimedBatch) {
    b.batchId in s.db.inFlight && BatchOf(s.db.rows, b.batchId) == b
  }

  ghost predicate PhaseInv(s: System) {
    match s.phase
    case Disconnected => s.toServer == [] && s.acks == []
    case Opened => s.toServer == [] && s.acks == []
    case Ready(todo) =>
      && s.toServer == []
      && |todo| <= 1
      && (todo == [] ==> s.db.inFlight == map[])
      && (todo != [] ==> IsCurrent(s, todo[0]))
    case Waiting(b, todo) => todo == [] && IsCurrent(s, b)
    case Resolved(b, status, todo) =>
      todo == [] && IsCurrent(s, b) && s.toServer == [] && (Ingested(status) <==> b.batchId in s.server.seen)
  }

  /** An ACK for the batch in flight tells the truth, and then the batch is no longer under way. */
  ghost predicate ChannelInv(s: System) {
    && (forall m :: m in s.toServer ==> s.phase.Waiting? && m == MessageOf(s.cfg, s.db.rows, s.phase.batch))
    && |s.toServer| <= 1
    && (forall a :: a in s.acks ==> a.batchId in s.hist.claims)
    && (forall a :: a in s.acks && a.batchId in s.db.inFlight ==>
          && (s.phase.Waiting? || s.phase.Resolved?)
          && s.toServer == []
          && (Ingested(Decode(a.code)) <==> a.batchId in s.server.seen))
  }

  /** Claimed rows are older than the pending rows of their origin. */
  ghost predicate OrderInv(s: System) {
    forall r, p :: r in s.db.rows && p in s.db.rows && r.batch.Some? && p.batch == None && r.origin == p.origin
                   ==> r.id < p.id
  }

  ghost predicate LogFaithful(s: System) {
    forall e :: e in s.server.log ==>
                  && 1 <= e.row < s.db.nextId && e.row <= |s.hist.inserted|
                  && e.sample == s.hist.inserted[e.row - 1].sample
                  && e.datasource == DatasourceOf(s.cfg, s.hist.inserted[e.row - 1].origin)
                  && e.batchId in s.server.seen
  }

  /** Per origin, row ids are ingested in strictly increasing order. */
  ghost predicate OriginOrder(inserted: seq<Row>, log: seq<Entry>)
    requires forall e :: e in log ==> 1 <= e.row <= |inserted|
  {
    forall i, j :: 0 <= i < j < |log| && inserted[log[i].row - 1].origin == inserted[log[j].row - 1].origin
                   ==> log[i].row < log[j].row
  }

  ghost predicate LogInv(s: System) {
    && LogFaithful(s)
    && OriginOrder(s.hist.inserted, s.server.log)
    && s.server.seen <= s.hist.claims.Keys
    && (forall r :: r in s.db.rows ==>
          (r.id in LogIds(s.server.log) <==> r.batch.Some? && r.batch.value in s.server.seen))
    && (forall e, p :: e in s.server.log && p in s.db.rows && p.id !in LogIds(s.server.log)
                       && s.hist.inserted[e.row - 1].origin == p.origin
                       ==> e.row < p.id)
  }

  /** Conservation: every inserted row is in exactly one place. */
  ghost predicate Conserved(s: System) {
    && (forall id :: 1 <= id < s.db.nextId <==>
          id in Ids(s.db.rows) || id in s.hist.delivered || id in s.hist.rejected || id in s.hist.evicted)
    && Ids(s.db.rows) !! s.hist.delivered !! s.hist.rejected !! s.hist.evicted
  }

  ghost predicate HistoryInv(s: System) {
    && Conserved(s)
    && s.hist.delivered <= LogIds(s.server.log)
    && s.hist.rejected !! LogIds(s.server.log)
    && s.hist.evicted !! LogIds(s.server.log)
    && s.hist.evictedAtOpen + s.dropped == |s.hist.evicted|
  }

  ghost predicate Inv(s: System) {
    TableInv(s) && BatchInv(s) && PhaseInv(s) && ChannelInv(s) && OrderInv(s) && LogInv(s) && HistoryInv(s)
  }

  lemma InitInv(cfg: Config)
    requires cfg.maxBatch > 0
    ensures Inv(Init(cfg))
  {
  }
}
