/** What holds in every reachable state of the delivery protocol, over all runs. */
module DeliveryTheorems {
  import opened Common
  import opened SampleTable
  import opened TableLaws
  import opened Buffer
  import opened Delivery
  import opened DeliverySafety
  import opened DeliverySteps

  // --------------------------------------------------------- one step at a time

  lemma EnqueueKeepsInv(s: System, origin: Origin, samples: seq<Sample>)
    requires Inv(s)
    ensures Inv(EnqueueStep(s, origin, samples))
  {
    if samples != [] {
      var s' := EnqueueStep(s, origin, samples);
      var victims := Victims(s.db.rows, |samples|, s.cfg.maxRows);
      var added := NewRows(s.db.nextId, origin, samples);
      EnqueueMeetsSpec(s, origin, samples);
      EnqueueTable(s, s', victims, added);
      EnqueueBatches(s, s', victims, added);
      EnqueueOrder(s, s', victims, added);
      EnqueueChannels(s, s', victims, added);
      EnqueueLog(s, s', victims, added);
      EnqueueHistory(s, s', victims, added);
    }
  }

  lemma ClaimKeepsInv(s: System, b: Ulid, nowMs: int)
    requires Inv(s) && Enabled(s, Action.Claim(b, nowMs))
    ensures Inv(ClaimStep(s, b, nowMs))
  {
    var s' := ClaimStep(s, b, nowMs);
    var claim := NextClaim(s.db.rows, s.cfg.maxBatch);
    ClaimMeetsSpec(s, b, nowMs);
    ClaimTable(s, s', claim, b, nowMs);
    ClaimBatches(s, s', claim, b, nowMs);
    ClaimOrder(s, s', claim, b, nowMs);
    ClaimChannels(s, s', claim, b, nowMs);
    ClaimLog(s, s', claim, b, nowMs);
    ClaimIds(s, s', claim, b, nowMs);
  }

  lemma SettleKeepsInv(s: System)
    requires Inv(s) && s.phase.Resolved?
    ensures Inv(SettleStep(s))
  {
    var s' := SettleStep(s);
    var b := s.phase.batch.batchId;
    if Deletes(s.phase.status) {
      RemoveMeetsSpec(s);
      RemoveKeeps(s, s', b);
      RemoveLog(s, s', b);
      RemoveHistory(s, s');
    } else {
      ReturnMeetsSpec(s);
      ReturnKeeps(s, s', b);
      ReturnLog(s, s', b);
      ReturnIds(s, s', b);
    }
  }

  lemma ReplyKeepsInv(s: System, code: StatusCode)
    requires Inv(s) && Enabled(s, ServerReply(code))
    ensures Inv(Apply(s, ServerReply(code)))
  {
    var s' := Apply(s, ServerReply(code));
    var m := s.toServer[0];
    assert m in s.toServer;
    ReplyChannels(s, code);
    if s'.server != s.server {
      BatchFits(s, Entries(m));
      IngestLog(s, s', Entries(m));
      EntriesAreRows(s, Entries(m));
      ReplyHistory(s, s', Entries(m));
    }
  }

  lemma EntriesAreRows(s: System, es: seq<Entry>)
    requires TableInv(s) && PhaseInv(s) && s.phase.Waiting?
    requires es == Entries(MessageOf(s.cfg, s.db.rows, s.phase.batch))
    ensures LogIds(es) <= Ids(s.db.rows)
  {
    EntriesOf(s);
    BatchEntries(s, Tagged(s.db.rows, Some(s.phase.batch.batchId)), es);
  }

  /** A batch that is ingested was neither rejected nor evicted: its rows are still in the table. */
  lemma ReplyHistory(s: System, s': System, es: seq<Entry>)
    requires HistoryInv(s) && LogIds(es) <= Ids(s.db.rows)
    requires s'.hist == s.hist && s'.db == s.db && s'.dropped == s.dropped
    requires s'.server.log == s.server.log + es
    ensures HistoryInv(s')
  {
    assert LogIds(s'.server.log) == LogIds(s.server.log) + LogIds(es);
  }

  /** Steps that only move the phase and the channels. */
  lemma LinkKeepsInv(s: System, s': System)
    requires Inv(s) && PhaseInv(s') && ChannelInv(s')
    requires s' == s.(phase := s'.phase, toServer := s'.toServer, acks := s'.acks)
    ensures Inv(s')
  {
  }

  predicate IsLinkAction(a: Action) {
    a.Connect? || a.Recover? || a.Send? || a.DuplicateAck? || a.ReadAck? || a.Disconnect?
  }

  lemma LinkActionKeepsInv(s: System, a: Action)
    requires Inv(s) && Enabled(s, a) && IsLinkAction(a)
    ensures Inv(Apply(s, a))
  {
    assert PhaseInv(Apply(s, a)) && ChannelInv(Apply(s, a)) by {
      LinkActionKeeps(s, a);
    }
    LinkKeepsInv(s, Apply(s, a));
  }

  lemma CrashKeepsInv(s: System)
    requires Inv(s)
    ensures Inv(Apply(s, Crash))
  {
  }

  lemma StepKeepsInv(s: System, a: Action)
    requires Inv(s) && Enabled(s, a)
    ensures Inv(Apply(s, a))
  {
    match a
    case Enqueue(origin, samples) => EnqueueKeepsInv(s, origin, samples);
    case Claim(b, nowMs) => ClaimKeepsInv(s, b, nowMs);
    case ServerReply(code) => ReplyKeepsInv(s, code);
    case Settle => SettleKeepsInv(s);
    case Crash => CrashKeepsInv(s);
    case _ => LinkActionKeepsInv(s, a);
  }

  /** Every reachable state satisfies the invariant. */
  lemma {:induction false} RunKeepsInv(s: System, actions: seq<Action>, s': System)
    requires Inv(s) && Runs(s, actions, s')
    ensures Inv(s')
    decreases |actions|
  {
    if actions != [] {
      StepKeepsInv(s, actions[0]);
      RunKeepsInv(Apply(s, actions[0]), actions[1..], s');
    }
  }

  ghost predicate Reachable(cfg: Config, actions: seq<Action>, s: System) {
    cfg.maxBatch > 0 && Runs(Init(cfg), actions, s)
  }

  lemma ReachableInv(cfg: Config, actions: seq<Action>, s: System)
    requires Reachable(cfg, actions, s)
    ensures Inv(s) && s.cfg == cfg
  {
    RunKeepsInv(Init(cfg), actions, s);
    RunKeepsConfig(Init(cfg), actions, s);
  }

  lemma {:induction false} RunKeepsConfig(s: System, actions: seq<Action>, s': System)
    requires Runs(s, actions, s')
    ensures s'.cfg == s.cfg
    decreases |actions|
  {
    if actions != [] {
      RunKeepsConfig(Apply(s, actions[0]), actions[1..], s');
    }
  }

  // ---------------------------------------------------------------- theorems

  ghost predicate IngestedOnce(log: seq<Entry>, row: nat) {
    exists i :: 0 <= i < |log| && log[i].row == row && forall j :: 0 <= j < |log| && log[j].row == row ==> j == i
  }

  /**
   Exactly-once delivery. Whatever the schedule of enqueues, ACK duplication and reordering, retries,
   disconnects and crashes: no row is ingested twice; every row deleted on an Ok or Duplicate ACK was
   ingested exactly once, and no rejected or evicted row ever was; a row still in the table was ingested
   only if it is in flight.
   */
  lemma ExactlyOnce(cfg: Config, actions: seq<Action>, s: System)
    requires Reachable(cfg, actions, s)
    ensures forall i, j :: 0 <= i < j < |s.server.log| ==> s.server.log[i].row != s.server.log[j].row
    ensures forall id :: id in s.hist.delivered ==> IngestedOnce(s.server.log, id)
    ensures forall id :: id in s.hist.rejected || id in s.hist.evicted ==> id !in LogIds(s.server.log)
    ensures forall r :: r in s.db.rows && r.batch == None ==> r.id !in LogIds(s.server.log)
  {
    ReachableInv(cfg, actions, s);
    OrderedLogIsDistinct(s.hist.inserted, s.server.log);
    forall id | id in s.hist.delivered ensures IngestedOnce(s.server.log, id) {
      FoundOnce(s.server.log, id);
    }
  }

  lemma OrderedLogIsDistinct(inserted: seq<Row>, log: seq<Entry>)
    requires forall e :: e in log ==> 1 <= e.row <= |inserted|
    requires OriginOrder(inserted, log)
    ensures forall i, j :: 0 <= i < j < |log| ==> log[i].row != log[j].row
  {
    forall i, j | 0 <= i < j < |log| ensures log[i].row != log[j].row {
      assert log[i] in log && log[j] in log;
    }
  }

  lemma FoundOnce(log: seq<Entry>, id: nat)
    requires id in LogIds(log)
    requires forall i, j :: 0 <= i < j < |log| ==> log[i].row != log[j].row
    ensures IngestedOnce(log, id)
  {
    var e :| e in log && e.row == id;
    var i :| 0 <= i < |log| && log[i] == e;
  }

  /** The ingested samples of each origin, None included, form a strictly increasing sequence of row ids. */
  lemma PerOriginOrder(cfg: Config, actions: seq<Action>, s: System, i: nat, j: nat)
    requires Reachable(cfg, actions, s) && i < j < |s.server.log|
    ensures 1 <= s.server.log[i].row <= |s.hist.inserted| && 1 <= s.server.log[j].row <= |s.hist.inserted|
    ensures s.hist.inserted[s.server.log[i].row - 1].origin == s.hist.inserted[s.server.log[j].row - 1].origin
            ==> s.server.log[i].row < s.server.log[j].row
  {
    ReachableInv(cfg, actions, s);
    assert s.server.log[i] in s.server.log && s.server.log[j] in s.server.log;
  }

  /** What the server stores is the enqueued sample, attributed to its producer's datasource. */
  lemma IngestIsFaithful(cfg: Config, actions: seq<Action>, s: System, e: Entry)
    requires Reachable(cfg, actions, s) && e in s.server.log
    ensures 1 <= e.row <= |s.hist.inserted|
    ensures var row := s.hist.inserted[e.row - 1];
            && row.id == e.row && e.sample == row.sample
            && e.datasource == match row.origin case Some(connector) => connector case None => cfg.datasource
  {
    ReachableInv(cfg, actions, s);
  }

  /** Every inserted row is in exactly one of table, delivered, rejected, evicted; the counter is exact. */
  lemma Conservation(cfg: Config, actions: seq<Action>, s: System)
    requires Reachable(cfg, actions, s)
    ensures Conserved(s)
    ensures |s.hist.inserted| == s.db.nextId - 1
    ensures s.dropped == |s.hist.evicted| - s.hist.evictedAtOpen
    ensures |s.hist.inserted| == |s.db.rows| + |s.hist.delivered| + |s.hist.rejected| + |s.hist.evicted|
  {
    ReachableInv(cfg, actions, s);
    assert Sorted(s.hist.inserted) && forall id :: id in Ids(s.hist.inserted) <==> 1 <= id < s.db.nextId by {
      InsertedIds(s);
    }
    IdsCount(s.db.rows);
    IdsCount(s.hist.inserted);
    PartSizes(Ids(s.hist.inserted), Ids(s.db.rows), s.hist.delivered, s.hist.rejected, s.hist.evicted);
  }

  lemma InsertedIds(s: System)
    requires TableInv(s)
    ensures Sorted(s.hist.inserted) && forall id :: id in Ids(s.hist.inserted) <==> 1 <= id < s.db.nextId
  {
    forall id | 1 <= id < s.db.nextId ensures id in Ids(s.hist.inserted) {
      assert s.hist.inserted[id - 1] in s.hist.inserted;
    }
  }

  lemma PartSizes(all: set<nat>, a: set<nat>, b: set<nat>, c: set<nat>, d: set<nat>)
    requires a !! b !! c !! d
    requires forall id :: id in all <==> id in a || id in b || id in c || id in d
    ensures |all| == |a| + |b| + |c| + |d|
  {
    assert all == a + b + c + d;
  }

  /** A step moves a row to `evicted` only from pending. */
  lemma OnlyPendingEvicted(s: System, a: Action, id: nat)
    requires Enabled(s, a) && id in Apply(s, a).hist.evicted && id !in s.hist.evicted
    ensures a.Enqueue? && exists r :: r in s.db.rows && r.id == id && r.batch == None
  {
  }

  /** Lock-step: one batch of at most maxBatch rows in flight, and none at all when the loop claims. */
  lemma LockStep(cfg: Config, actions: seq<Action>, s: System)
    requires Reachable(cfg, actions, s)
    ensures |s.db.inFlight| <= 1
    ensures |Claimed(s.db.rows)| <= cfg.maxBatch
    ensures s.phase == Ready([]) ==> s.db.inFlight == map[] && Claimed(s.db.rows) == []
  {
    ReachableInv(cfg, actions, s);
    ClaimedAtMost(s);
    OneInFlight(s.db.inFlight);
  }

  lemma OneInFlight(inFlight: map<Ulid, int>)
    requires forall b, c :: b in inFlight && c in inFlight ==> b == c
    ensures |inFlight| <= 1
  {
    if inFlight != map[] {
      var b :| b in inFlight;
      assert inFlight.Keys == {b};
      assert |inFlight| == |inFlight.Keys|;
    }
  }

  lemma ClaimedAtMost(s: System)
    requires Inv(s)
    ensures |Claimed(s.db.rows)| <= s.cfg.maxBatch
    ensures s.db.inFlight == map[] ==> Claimed(s.db.rows) == []
  {
    if s.db.inFlight == map[] {
      NothingClaimed(s);
      SelectNone(s.db.rows, (x: Row) => x.batch.Some?);
    } else {
      var b :| b in s.db.inFlight;
      TaggedSorted(s.db.rows);
      forall x | x in s.db.rows && x.batch.Some? ensures x.batch == Some(b) {
        assert x.batch.value in s.db.inFlight;
      }
      SortedExt(Claimed(s.db.rows), Tagged(s.db.rows, Some(b)));
    }
  }

  /**
   Crash recovery: the batch ids of the rows are the keys of the in-flight table, and what recovery
   reads back, and any message on the stream, is the batch as claimed.
   */
  lemma FaithfulRecovery(cfg: Config, actions: seq<Action>, s: System)
    requires Reachable(cfg, actions, s)
    ensures forall b :: b in s.db.inFlight <==> exists r :: r in s.db.rows && r.batch == Some(b)
    ensures forall r, q :: r in s.db.rows && q in s.db.rows && r.batch.Some? && r.batch == q.batch
                           ==> r.origin == q.origin
    ensures forall order :: RecoveryOrder(order, s.db.inFlight) ==>
              forall i :: 0 <= i < |order| ==>
                order[i] in s.hist.claims && Recovered(s.db.rows, order)[i] == s.hist.claims[order[i]]
    ensures forall m :: m in s.toServer ==>
              && m.batch.batchId in s.hist.claims
              && m.batch.samples == s.hist.claims[m.batch.batchId].samples
              && m.batch.datasource == match s.hist.claims[m.batch.batchId].origin
                                       case Some(connector) => connector
                                       case None => cfg.datasource
  {
    ReachableInv(cfg, actions, s);
    BatchesHaveRows(s.db);
    RecoveredAsClaimed(s);
    SentAsClaimed(s);
  }

  lemma BatchesHaveRows(db: Db)
    requires Valid(db)
    ensures forall b :: b in db.inFlight <==> exists r :: r in db.rows && r.batch == Some(b)
  {
    forall b | b in db.inFlight ensures exists r :: r in db.rows && r.batch == Some(b) {
      assert Tagged(db.rows, Some(b))[0] in Tagged(db.rows, Some(b));
    }
  }

  lemma RecoveredAsClaimed(s: System)
    requires BatchInv(s)
    ensures forall order :: RecoveryOrder(order, s.db.inFlight) ==>
              forall i :: 0 <= i < |order| ==>
                order[i] in s.hist.claims && Recovered(s.db.rows, order)[i] == s.hist.claims[order[i]]
  {
  }

  lemma SentAsClaimed(s: System)
    requires BatchInv(s) && PhaseInv(s) && ChannelInv(s)
    ensures forall m :: m in s.toServer ==>
              && m.batch.batchId in s.hist.claims
              && m.batch.samples == s.hist.claims[m.batch.batchId].samples
              && m.batch.datasource == DatasourceOf(s.cfg, s.hist.claims[m.batch.batchId].origin)
  {
  }

  /** The record of a claim never changes afterwards. */
  lemma {:induction false} ClaimsAreKept(s: System, actions: seq<Action>, s': System, b: Ulid)
    requires Runs(s, actions, s') && b in s.hist.claims
    ensures b in s'.hist.claims && s'.hist.claims[b] == s.hist.claims[b]
    decreases |actions|
  {
    if actions != [] {
      ClaimsAreKept(Apply(s, actions[0]), actions[1..], s', b);
    }
  }

  // ---------------------------------------------------------------- capacity

  ghost predicate EnqueuesAtMost(actions: seq<Action>, n: nat) {
    forall a :: a in actions && a.Enqueue? ==> |a.samples| <= n
  }

  /** The table never holds more than max(maxRows, maxBatch + largest enqueue) rows, in any run. */
  lemma CapacityBound(cfg: Config, actions: seq<Action>, s: System, largest: nat)
    requires Reachable(cfg, actions, s) && EnqueuesAtMost(actions, largest)
    ensures |s.db.rows| <= Max(cfg.maxRows, cfg.maxBatch + largest)
  {
    RunKeepsBound(Init(cfg), actions, s, largest);
  }

  lemma {:induction false} RunKeepsBound(s: System, actions: seq<Action>, s': System, largest: nat)
    requires InvBounded(s, largest) && Runs(s, actions, s') && EnqueuesAtMost(actions, largest)
    ensures Bounded(s', largest) && s'.cfg == s.cfg
    decreases |actions|
  {
    if actions != [] {
      StepKeepsInvBounded(s, actions[0], largest);
      RunKeepsBound(Apply(s, actions[0]), actions[1..], s', largest);
    }
  }

  ghost predicate InvBounded(s: System, largest: nat) { Inv(s) && Bounded(s, largest) }

  lemma StepKeepsInvBounded(s: System, a: Action, largest: nat)
    requires InvBounded(s, largest) && Enabled(s, a) && (a.Enqueue? ==> |a.samples| <= largest)
    ensures InvBounded(Apply(s, a), largest) && Apply(s, a).cfg == s.cfg
  {
    assert Inv(Apply(s, a)) by { StepKeepsInv(s, a); }
    assert Bounded(Apply(s, a), largest) by { StepKeepsBound(s, a, largest); }
  }

  ghost predicate Bounded(s: System, largest: nat) {
    |s.db.rows| <= Max(s.cfg.maxRows, s.cfg.maxBatch + largest)
  }

  lemma StepKeepsBound(s: System, a: Action, largest: nat)
    requires Inv(s) && Enabled(s, a) && (a.Enqueue? ==> |a.samples| <= largest) && Bounded(s, largest)
    ensures Bounded(Apply(s, a), largest)
  {
    if a.Enqueue? {
      ClaimedAtMost(s);
      EnqueueBounded(s, a.origin, a.samples, largest);
    } else {
      ShrinksUnlessEnqueue(s, a);
    }
  }

  lemma EnqueueBounded(s: System, origin: Origin, samples: seq<Sample>, largest: nat)
    requires Valid(s.db) && |Claimed(s.db.rows)| <= s.cfg.maxBatch && |samples| <= largest && Bounded(s, largest)
    ensures Bounded(EnqueueStep(s, origin, samples), largest)
  {
    if samples != [] {
      EvictionExact(s.db, s.cfg.maxRows, origin, samples);
    }
  }

  lemma ShrinksUnlessEnqueue(s: System, a: Action)
    requires Enabled(s, a) && !a.Enqueue?
    ensures |Apply(s, a).db.rows| <= |s.db.rows| && Apply(s, a).cfg == s.cfg
  {
  }
}
