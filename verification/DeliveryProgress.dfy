/** Progress of the send loop: no row is starved, and draining takes an exact number of rounds. */
module DeliveryProgress {
  import opened Common
  import opened SampleTable
  import opened TableLaws
  import opened Delivery
  import opened DeliverySafety
  import opened DeliverySteps
  import opened DeliveryTheorems

  /** Does action `a`, taken in `s`, end a round by deleting the batch (Ok, Duplicate or Rejected)? */
  ghost predicate EndsRound(s: System, a: Action) {
    a.Settle? && s.phase.Resolved? && Deletes(s.phase.status)
  }

  /** The number of rounds completed along a run. */
  ghost function Rounds(s: System, actions: seq<Action>): nat
    decreases |actions|
  {
    if actions == [] || !Enabled(s, actions[0]) then 0
    else (if EndsRound(s, actions[0]) then 1 else 0) + Rounds(Apply(s, actions[0]), actions[1..])
  }

  // -------------------------------------------------------------- starvation

  /** The batch in flight holds a row older than every pending row. */
  ghost predicate FrontInv(s: System) {
    forall b, p :: b in s.db.inFlight && p in s.db.rows && p.batch == None ==> HasOlder(s.db.rows, b, p.id)
  }

  ghost predicate HasOlder(rows: seq<Row>, b: Ulid, id: nat) {
    exists r :: r in rows && r.batch == Some(b) && r.id < id
  }

  function OlderIds(rows: seq<Row>, id: nat): set<nat> { set r | r in rows && r.id < id :: r.id }

  ghost predicate IsPending(s: System, id: nat) {
    exists r :: r in s.db.rows && r.id == id && r.batch == None
  }

  /** Row `id` is pending in every state of the run: never claimed, never evicted. */
  ghost predicate PendingThroughout(s: System, actions: seq<Action>, id: nat)
    decreases |actions|
  {
    && IsPending(s, id)
    && (actions != [] && Enabled(s, actions[0]) ==> PendingThroughout(Apply(s, actions[0]), actions[1..], id))
  }

  lemma EnqueueFront(s: System, s': System, victims: seq<Row>, added: seq<Row>)
    requires Valid(s.db) && FrontInv(s) && EnqueueSpec(s, s', victims, added)
    ensures FrontInv(s')
  {
    forall b, p | b in s'.db.inFlight && p in s'.db.rows && p.batch == None ensures HasOlder(s'.db.rows, b, p.id) {
      var own := Tagged(s.db.rows, Some(b));
      assert own[0] in own;
      if p in s.db.rows {
        var r :| r in s.db.rows && r.batch == Some(b) && r.id < p.id;
        assert r in s'.db.rows;
      } else {
        assert p in added && own[0] in s'.db.rows;
      }
    }
  }

  lemma FrontOfClaim(rows: seq<Row>, rows': seq<Row>, claim: seq<Row>, b: Ulid)
    requires Sorted(rows) && claim != [] && claim[0] in rows && claim[0].batch == None
    requires forall p :: p in rows && p.batch == None ==> claim[0].id <= p.id
    requires forall x :: x in rows' <==>
                           (x in rows && x !in claim) || (x.batch == Some(b) && x.(batch := None) in claim)
    ensures forall p :: p in rows' && p.batch == None ==> HasOlder(rows', b, p.id)
  {
    var first := claim[0].(batch := Some(b));
    assert first.(batch := None) == claim[0];
    assert first in rows';
    forall p | p in rows' && p.batch == None ensures HasOlder(rows', b, p.id) {
      assert p in rows && p != claim[0];
      if p.id == claim[0].id {
        IdUnique(rows, p, claim[0]);
      }
    }
  }

  lemma ClaimFront(s: System, s': System, claim: seq<Row>, b: Ulid, nowMs: int)
    requires Sorted(s.db.rows) && s.db.inFlight == map[] && ClaimSpec(s, s', claim, b, nowMs)
    requires forall p :: p in s.db.rows && p.batch == None ==> claim[0].id <= p.id
    ensures FrontInv(s')
  {
    FrontOfClaim(s.db.rows, s'.db.rows, claim, b);
  }

  lemma EnqueueKeepsFront(s: System, origin: Origin, samples: seq<Sample>)
    requires Valid(s.db) && FrontInv(s)
    ensures FrontInv(EnqueueStep(s, origin, samples))
  {
    if samples != [] {
      EnqueueMeetsSpec(s, origin, samples);
      EnqueueFront(s, EnqueueStep(s, origin, samples), Victims(s.db.rows, |samples|, s.cfg.maxRows),
                   NewRows(s.db.nextId, origin, samples));
    }
  }

  lemma ClaimKeepsFront(s: System, b: Ulid, nowMs: int)
    requires TableInv(s) && BatchInv(s) && PhaseInv(s) && Enabled(s, Action.Claim(b, nowMs))
    ensures FrontInv(ClaimStep(s, b, nowMs))
  {
    var claim := NextClaim(s.db.rows, s.cfg.maxBatch);
    var s' := ClaimStep(s, b, nowMs);
    assert ClaimSpec(s, s', claim, b, nowMs) by { ClaimMeetsSpec(s, b, nowMs); }
    assert forall p :: p in s.db.rows && p.batch == None ==> claim[0].id <= p.id by {
      NextClaimFacts(s.db.rows, s.cfg.maxBatch);
    }
    ClaimFront(s, s', claim, b, nowMs);
  }

  lemma StepKeepsFront(s: System, a: Action)
    requires Inv(s) && FrontInv(s) && Enabled(s, a)
    ensures FrontInv(Apply(s, a))
  {
    match a
    case Enqueue(origin, samples) => EnqueueKeepsFront(s, origin, samples);
    case Claim(b, nowMs) => ClaimKeepsFront(s, b, nowMs);
    case Settle => SettleKeepsFront(s);
    case _ => SameTablesSameFront(s, Apply(s, a));
  }

  lemma SettleKeepsFront(s: System)
    requires BatchInv(s) && PhaseInv(s) && s.phase.Resolved?
    ensures FrontInv(SettleStep(s))
  {
    assert SettleStep(s).db.inFlight == map[];
  }

  lemma SameTablesSameFront(s: System, s': System)
    requires FrontInv(s) && s'.db == s.db
    ensures FrontInv(s')
  {
  }

  /** While row `id` stays pending, a step never adds older rows, and a completed round removes one. */
  lemma StepShrinksOlder(s: System, a: Action, id: nat)
    requires TableInv(s) && BatchInv(s) && PhaseInv(s) && FrontInv(s) && Enabled(s, a) && IsPending(s, id)
    ensures OlderIds(Apply(s, a).db.rows, id) <= OlderIds(s.db.rows, id)
    ensures EndsRound(s, a) ==> OlderIds(Apply(s, a).db.rows, id) < OlderIds(s.db.rows, id)
  {
    match a
    case Enqueue(origin, samples) => EnqueueShrinksOlder(s, origin, samples, id);
    case Claim(b, nowMs) => ClaimKeepsOlder(s, b, nowMs, id);
    case Settle => SettleShrinksOlder(s, id);
    case _ => assert Apply(s, a).db == s.db;
  }

  lemma ClaimKeepsOlder(s: System, b: Ulid, nowMs: int, id: nat)
    requires TableInv(s) && BatchInv(s) && Enabled(s, Action.Claim(b, nowMs))
    ensures OlderIds(ClaimStep(s, b, nowMs).db.rows, id) == OlderIds(s.db.rows, id)
  {
    ClaimMeetsSpec(s, b, nowMs);
    ClaimIds(s, ClaimStep(s, b, nowMs), NextClaim(s.db.rows, s.cfg.maxBatch), b, nowMs);
    SameIdsSameOlder(s.db.rows, ClaimStep(s, b, nowMs).db.rows, id);
  }

  lemma EnqueueShrinksOlder(s: System, origin: Origin, samples: seq<Sample>, id: nat)
    requires Valid(s.db) && IsPending(s, id)
    ensures OlderIds(EnqueueStep(s, origin, samples).db.rows, id) <= OlderIds(s.db.rows, id)
  {
    if samples != [] {
      EnqueueMeetsSpec(s, origin, samples);
    }
  }

  lemma SettleShrinksOlder(s: System, id: nat)
    requires Valid(s.db) && PhaseInv(s) && FrontInv(s) && s.phase.Resolved? && IsPending(s, id)
    ensures OlderIds(SettleStep(s).db.rows, id) <= OlderIds(s.db.rows, id)
    ensures Deletes(s.phase.status) ==> OlderIds(SettleStep(s).db.rows, id) < OlderIds(s.db.rows, id)
  {
    var b := s.phase.batch.batchId;
    if Deletes(s.phase.status) {
      RemoveMeetsSpec(s);
      RoundRemovesOlder(s, SettleStep(s), b, id);
    } else {
      ReturnMeetsSpec(s);
      ReturnIds(s, SettleStep(s), b);
      SameIdsSameOlder(s.db.rows, SettleStep(s).db.rows, id);
    }
  }

  lemma SameIdsSameOlder(a: seq<Row>, b: seq<Row>, id: nat)
    requires Ids(a) == Ids(b)
    ensures OlderIds(a, id) == OlderIds(b, id)
  {
    assert forall i :: i in OlderIds(a, id) <==> i in Ids(a) && i < id;
    assert forall i :: i in OlderIds(b, id) <==> i in Ids(b) && i < id;
  }

  lemma RoundRemovesOlder(s: System, s': System, b: Ulid, id: nat)
    requires Sorted(s.db.rows) && FrontInv(s) && IsPending(s, id) && b in s.db.inFlight && RemoveSpec(s, s', b)
    ensures OlderIds(s'.db.rows, id) < OlderIds(s.db.rows, id)
  {
    assert HasOlder(s.db.rows, b, id);
    var r :| r in s.db.rows && r.batch == Some(b) && r.id < id;
    forall x | x in s'.db.rows ensures x.id != r.id {
      if x.id == r.id {
        IdUnique(s.db.rows, x, r);
      }
    }
    assert r.id in OlderIds(s.db.rows, id) && r.id !in OlderIds(s'.db.rows, id);
  }

  lemma {:induction false} RoundsBoundedByOlder(s: System, actions: seq<Action>, s': System, id: nat)
    requires Inv(s) && FrontInv(s) && Runs(s, actions, s') && PendingThroughout(s, actions, id)
    ensures Rounds(s, actions) <= |OlderIds(s.db.rows, id)|
    decreases |actions|
  {
    if actions != [] {
      var s1 := Apply(s, actions[0]);
      assert Inv(s1) by { StepKeepsInv(s, actions[0]); }
      assert FrontInv(s1) by { StepKeepsFront(s, actions[0]); }
      StepShrinksOlder(s, actions[0], id);
      RoundsBoundedByOlder(s1, actions[1..], s', id);
      SubsetSize(OlderIds(s1.db.rows, id), OlderIds(s.db.rows, id));
    }
  }

  lemma {:induction false} SubsetSize(a: set<nat>, b: set<nat>)
    requires a <= b
    ensures |a| <= |b| && (a != b ==> |a| < |b|)
  {
    assert b == a + (b - a);
  }

  lemma {:induction false} RunKeepsFront(s: System, actions: seq<Action>, s': System)
    requires Inv(s) && FrontInv(s) && Runs(s, actions, s')
    ensures FrontInv(s')
    decreases |actions|
  {
    if actions != [] {
      assert Inv(Apply(s, actions[0])) by { StepKeepsInv(s, actions[0]); }
      assert FrontInv(Apply(s, actions[0])) by { StepKeepsFront(s, actions[0]); }
      RunKeepsFront(Apply(s, actions[0]), actions[1..], s');
    }
  }

  /**
   No starvation. From any reachable state, let k rows have smaller ids than row `id`. In any continuation
   with k + 1 completed rounds, whatever else is enqueued, retried, disconnected or crashed in between,
   the row does not stay pending: it has been claimed or evicted. When the loop is about to claim, all k
   are pending.
   */
  lemma NoStarvation(cfg: Config, prefix: seq<Action>, s: System, actions: seq<Action>, s': System, id: nat)
    requires Reachable(cfg, prefix, s) && Runs(s, actions, s')
    requires Rounds(s, actions) > |OlderIds(s.db.rows, id)|
    ensures !PendingThroughout(s, actions, id)
    ensures s.phase == Ready([]) ==> OlderIds(s.db.rows, id) == OlderIds(Pending(s.db.rows), id)
  {
    ReachableInv(cfg, prefix, s);
    ReachableFront(cfg, prefix, s);
    if s.phase == Ready([]) {
      IdleOlder(s, id);
    }
    if PendingThroughout(s, actions, id) {
      RoundsBoundedByOlder(s, actions, s', id);
    }
  }

  lemma ReachableFront(cfg: Config, actions: seq<Action>, s: System)
    requires Reachable(cfg, actions, s)
    ensures FrontInv(s)
  {
    InitInv(cfg);
    RunKeepsFront(Init(cfg), actions, s);
  }

  lemma IdleOlder(s: System, id: nat)
    requires Valid(s.db) && PhaseInv(s) && s.phase == Ready([])
    ensures OlderIds(Pending(s.db.rows), id) == OlderIds(s.db.rows, id)
  {
    NothingClaimed(s);
  }

  // ------------------------------------------------------------- drain bound

  function Origins(rows: seq<Row>): set<Origin> { set r | r in rows :: r.origin }

  /** Sum over `origins` of ceil(rows of that origin / m). */
  ghost function RoundsFor(origins: set<Origin>, rows: seq<Row>, m: nat): nat
    requires m > 0
  {
    if origins == {} then 0
    else
      var o :| o in origins;
      CeilDiv(|OfOrigin(rows, o)|, m) + RoundsFor(origins - {o}, rows, m)
  }

  lemma {:induction false} RoundsForPick(origins: set<Origin>, rows: seq<Row>, m: nat, o: Origin)
    requires m > 0 && o in origins
    ensures RoundsFor(origins, rows, m) == CeilDiv(|OfOrigin(rows, o)|, m) + RoundsFor(origins - {o}, rows, m)
  {
    var p :| p in origins && RoundsFor(origins, rows, m)
                             == CeilDiv(|OfOrigin(rows, p)|, m) + RoundsFor(origins - {p}, rows, m);
    if p != o {
      RoundsForPick(origins - {p}, rows, m, o);
      RoundsForPick(origins - {o}, rows, m, p);
      assert origins - {p} - {o} == origins - {o} - {p};
    }
  }

  lemma {:induction false} RoundsForSame(origins: set<Origin>, a: seq<Row>, b: seq<Row>, m: nat)
    requires m > 0 && forall o :: o in origins ==> |OfOrigin(a, o)| == |OfOrigin(b, o)|
    ensures RoundsFor(origins, a, m) == RoundsFor(origins, b, m)
  {
    if origins != {} {
      var o :| o in origins;
      RoundsForPick(origins, a, m, o);
      RoundsForPick(origins, b, m, o);
      RoundsForSame(origins - {o}, a, b, m);
    }
  }

  lemma {:induction false} RoundsForNone(origins: set<Origin>, rows: seq<Row>, m: nat)
    requires m > 0
    ensures RoundsFor(origins, rows, m) == 0 <==> forall r :: r in rows ==> r.origin !in origins
  {
    if origins != {} {
      var o :| o in origins;
      RoundsForPick(origins, rows, m, o);
      RoundsForNone(origins - {o}, rows, m);
      if OfOrigin(rows, o) == [] {
        assert forall r :: r in rows ==> r.origin != o;
      } else {
        assert OfOrigin(rows, o)[0] in OfOrigin(rows, o);
      }
    }
  }

  /** Removing one claim from the pending rows saves exactly one round. */
  lemma ClaimSavesOne(origins: set<Origin>, pending: seq<Row>, claim: seq<Row>, rest: seq<Row>, o: Origin, m: nat)
    requires m > 0 && Sorted(pending) && Sorted(rest) && o in origins
    requires OfOrigin(pending, o) != [] && claim == Limit(OfOrigin(pending, o), m)
    requires forall r :: r in rest <==> r in pending && r !in claim
    ensures RoundsFor(origins, pending, m) == RoundsFor(origins, rest, m) + 1
  {
    assert |OfOrigin(rest, o)| == |OfOrigin(pending, o)| - |claim| by {
      RestOfOrigin(pending, claim, rest, o, m);
    }
    assert CeilDiv(|OfOrigin(pending, o)|, m) == 1 + CeilDiv(|OfOrigin(rest, o)|, m);
    assert forall r :: r in claim ==> r in OfOrigin(pending, o);
    OthersSame(origins, pending, claim, rest, o, m);
    RoundsForPick(origins, pending, m, o);
    RoundsForPick(origins, rest, m, o);
  }

  lemma OthersSame(origins: set<Origin>, pending: seq<Row>, claim: seq<Row>, rest: seq<Row>, o: Origin, m: nat)
    requires m > 0 && Sorted(pending) && Sorted(rest)
    requires forall r :: r in claim ==> r.origin == o
    requires forall r :: r in rest <==> r in pending && r !in claim
    ensures RoundsFor(origins - {o}, pending, m) == RoundsFor(origins - {o}, rest, m)
  {
    forall p | p in origins - {o} ensures |OfOrigin(pending, p)| == |OfOrigin(rest, p)| {
      OthersKept(pending, claim, rest, o, p);
    }
    RoundsForSame(origins - {o}, pending, rest, m);
  }

  lemma RestOfOrigin(pending: seq<Row>, claim: seq<Row>, rest: seq<Row>, o: Origin, m: nat)
    requires Sorted(pending) && Sorted(rest) && claim == Limit(OfOrigin(pending, o), m)
    requires forall r :: r in rest <==> r in pending && r !in claim
    ensures OfOrigin(rest, o) == OfOrigin(pending, o)[|claim|..]
  {
    var same := OfOrigin(pending, o);
    OfOriginSorted(pending, o);
    OfOriginSorted(rest, o);
    PrefixIds(same, |claim|);
    SortedExt(OfOrigin(rest, o), same[|claim|..]);
  }

  lemma OthersKept(pending: seq<Row>, claim: seq<Row>, rest: seq<Row>, o: Origin, p: Origin)
    requires Sorted(pending) && Sorted(rest) && p != o
    requires forall r :: r in claim ==> r.origin == o
    requires forall r :: r in rest <==> r in pending && r !in claim
    ensures OfOrigin(pending, p) == OfOrigin(rest, p)
  {
    OfOriginSorted(pending, p);
    OfOriginSorted(rest, p);
    SortedExt(OfOrigin(pending, p), OfOrigin(rest, p));
  }

  /** Rounds still to go: one for the batch in flight, and those of the pending rows. */
  ghost function RoundsLeft(s: System, origins: set<Origin>): nat
    requires s.cfg.maxBatch > 0
  {
    |s.db.inFlight| + RoundsFor(origins, Pending(s.db.rows), s.cfg.maxBatch)
  }

  lemma ClaimSpends(rows: seq<Row>, origins: set<Origin>, m: nat)
    requires Sorted(rows) && NextClaim(rows, m) != [] && m > 0 && Origins(rows) <= origins
    ensures RoundsFor(origins, Pending(rows), m)
         == RoundsFor(origins, DeleteIds(Pending(rows), Ids(NextClaim(rows, m))), m) + 1
  {
    var pending, claim := Pending(rows), NextClaim(rows, m);
    TaggedSorted(rows);
    DeleteIdsSorted(pending, Ids(claim));
    assert && claim[0] == pending[0]
           && (forall r :: r in rows ==> (r.id in Ids(claim) <==> r in claim)) by {
      NextClaimFacts(rows, m);
    }
    assert pending[0] in pending;
    ClaimSavesOne(origins, pending, claim, DeleteIds(pending, Ids(claim)), pending[0].origin, m);
  }

  lemma ClaimKeepsRoundsLeft(s: System, b: Ulid, nowMs: int, origins: set<Origin>)
    requires TableInv(s) && BatchInv(s) && PhaseInv(s) && Enabled(s, Action.Claim(b, nowMs))
    requires Origins(s.db.rows) <= origins
    ensures RoundsLeft(ClaimStep(s, b, nowMs), origins) == RoundsLeft(s, origins)
  {
    ClaimSpends(s.db.rows, origins, s.cfg.maxBatch);
    ClaimPending(s.db, s.cfg.maxBatch, b, nowMs);
    assert s.db.inFlight == map[];
  }

  lemma SettleSavesOne(s: System, origins: set<Origin>)
    requires TableInv(s) && BatchInv(s) && PhaseInv(s) && EndsRound(s, Settle)
    ensures RoundsLeft(s, origins) == RoundsLeft(SettleStep(s), origins) + 1
  {
    var b := s.phase.batch.batchId;
    assert Pending(SettleStep(s).db.rows) == Pending(s.db.rows) by { AckOkEffect(s.db, b); }
    assert s.db.inFlight.Keys == {b};
    assert |s.db.inFlight| == |s.db.inFlight.Keys|;
    assert SettleStep(s).db.inFlight == map[];
  }

  lemma OriginsKept(s: System, a: Action, origins: set<Origin>)
    requires TableInv(s) && BatchInv(s) && Enabled(s, a) && !a.Enqueue? && Origins(s.db.rows) <= origins
    ensures Origins(Apply(s, a).db.rows) <= origins
  {
    if a.Claim? {
      ClaimMeetsSpec(s, a.batchId, a.nowMs);
      ClaimOrigins(s.db.rows, Apply(s, a).db.rows, NextClaim(s.db.rows, s.cfg.maxBatch), a.batchId);
    } else if a.Settle? && !Deletes(s.phase.status) {
      ReturnMeetsSpec(s);
      forall r | r in Apply(s, a).db.rows ensures r.origin in origins {
        assert r in s.db.rows || r.(batch := Some(s.phase.batch.batchId)) in s.db.rows;
      }
    }
  }

  lemma ClaimOrigins(rows: seq<Row>, rows': seq<Row>, claim: seq<Row>, b: Ulid)
    requires forall r :: r in claim ==> r in rows
    requires forall x :: x in rows' ==> x in rows || x.(batch := None) in claim
    ensures Origins(rows') <= Origins(rows)
  {
    forall x | x in rows' ensures x.origin in Origins(rows) {
      assert x in rows || x.(batch := None) in rows;
    }
  }

  /** A run without enqueues in which every settled batch is deleted. */
  ghost predicate Draining(s: System, actions: seq<Action>)
    decreases |actions|
  {
    actions != [] && Enabled(s, actions[0]) ==>
      && !actions[0].Enqueue?
      && (actions[0].Settle? ==> Deletes(s.phase.status))
      && Draining(Apply(s, actions[0]), actions[1..])
  }

  lemma StepRoundsLeft(s: System, a: Action, origins: set<Origin>)
    requires Inv(s) && Enabled(s, a) && !a.Enqueue? && (a.Settle? ==> Deletes(s.phase.status))
    requires Origins(s.db.rows) <= origins
    ensures Apply(s, a).cfg == s.cfg
    ensures RoundsLeft(s, origins) == RoundsLeft(Apply(s, a), origins) + if EndsRound(s, a) then 1 else 0
  {
    if a.Claim? {
      ClaimKeepsRoundsLeft(s, a.batchId, a.nowMs, origins);
    } else if a.Settle? {
      SettleSavesOne(s, origins);
    }
  }

  lemma {:induction false} DrainCounts(s: System, actions: seq<Action>, s': System, origins: set<Origin>)
    requires Inv(s) && Runs(s, actions, s') && Draining(s, actions) && Origins(s.db.rows) <= origins
    ensures Inv(s') && s'.cfg == s.cfg && Origins(s'.db.rows) <= origins
    ensures RoundsLeft(s, origins) == Rounds(s, actions) + RoundsLeft(s', origins)
    decreases |actions|
  {
    if actions != [] {
      var s1 := Apply(s, actions[0]);
      assert Inv(s1) by { StepKeepsInv(s, actions[0]); }
      OriginsKept(s, actions[0], origins);
      StepRoundsLeft(s, actions[0], origins);
      DrainCounts(s1, actions[1..], s', origins);
    }
  }

  /**
   Drain bound. From a reachable state in which the loop is about to claim, and with no further
   enqueues and every round ending in Ok, Duplicate or Rejected, the table is empty exactly when the
   sum over origins of ceil(rows of that origin / maxBatch) rounds have completed, and there are never
   more. Disconnects, crashes and ACK duplication do not change the count.
   */
  lemma DrainExact(cfg: Config, prefix: seq<Action>, s: System, actions: seq<Action>, s': System)
    requires Reachable(cfg, prefix, s) && s.phase == Ready([])
    requires Runs(s, actions, s') && Draining(s, actions)
    ensures var bound := RoundsFor(Origins(s.db.rows), s.db.rows, cfg.maxBatch);
            && Rounds(s, actions) <= bound
            && (s'.db.rows == [] <==> Rounds(s, actions) == bound)
  {
    ReachableInv(cfg, prefix, s);
    var origins := Origins(s.db.rows);
    DrainCounts(s, actions, s', origins);
    IdleRounds(s, origins);
    NoRoundsLeft(s', origins);
  }

  lemma IdleRounds(s: System, origins: set<Origin>)
    requires Valid(s.db) && PhaseInv(s) && s.phase == Ready([]) && s.cfg.maxBatch > 0
    ensures RoundsLeft(s, origins) == RoundsFor(origins, s.db.rows, s.cfg.maxBatch)
  {
    NothingClaimed(s);
    SelectAll(s.db.rows, HasBatch(None));
  }

  lemma NoRoundsLeft(s: System, origins: set<Origin>)
    requires Valid(s.db) && s.cfg.maxBatch > 0 && Origins(s.db.rows) <= origins
    ensures RoundsLeft(s, origins) == 0 <==> s.db.rows == []
  {
    RoundsForNone(origins, Pending(s.db.rows), s.cfg.maxBatch);
    assert RoundsFor(origins, Pending(s.db.rows), s.cfg.maxBatch) == 0 <==> Pending(s.db.rows) == [] by {
      assert Pending(s.db.rows) != [] ==> Pending(s.db.rows)[0] in Pending(s.db.rows);
    }
    CountRows(s.db.rows);
    if s.db.inFlight == map[] {
      NothingClaimed(s);
      SelectNone(s.db.rows, (x: Row) => x.batch.Some?);
    } else {
      var b :| b in s.db.inFlight;
      assert |Tagged(s.db.rows, Some(b))| > 0;
    }
  }
}
