/**
 Rounds as runs: what `SendAndAck` does to the buffer is what the step relation does in one round,
 and the rounds that drain the buffer exist.
 */
module DeliveryRounds {
  import opened Common
  import opened SampleTable
  import opened TableLaws
  import opened Buffer
  import opened Delivery
  import opened DeliverySafety
  import opened DeliverySteps
  import opened DeliveryTheorems
  import opened DeliveryProgress
  import opened Streamer

  lemma {:induction false} RunsAppend(s: System, a: seq<Action>, t: System, b: seq<Action>, u: System)
    requires Runs(s, a, t) && Runs(t, b, u)
    ensures Runs(s, a + b, u)
    decreases |a|
  {
    if a == [] {
      assert a + b == b;
    } else {
      RunsAppend(Apply(s, a[0]), a[1..], t, b, u);
      HeadOfAppend(a, b);
    }
  }

  lemma RunsCons(s: System, a: Action, rest: seq<Action>, s': System)
    requires Enabled(s, a) && Runs(Apply(s, a), rest, s')
    ensures Runs(s, [a] + rest, s')
  {
    assert ([a] + rest)[1..] == rest;
  }

  lemma DrainingCons(s: System, a: Action, rest: seq<Action>)
    requires Enabled(s, a) && !a.Enqueue? && (a.Settle? ==> Deletes(s.phase.status)) && Draining(Apply(s, a), rest)
    ensures Draining(s, [a] + rest)
  {
    assert ([a] + rest)[1..] == rest;
  }

  lemma {:induction false} DrainingAppend(s: System, a: seq<Action>, t: System, b: seq<Action>)
    requires Runs(s, a, t) && Draining(s, a) && Draining(t, b)
    ensures Draining(s, a + b)
    decreases |a|
  {
    if a == [] {
      assert a + b == b;
    } else {
      HeadOfAppend(a, b);
      DrainingAppend(Apply(s, a[0]), a[1..], t, b);
    }
  }

  // -------------------------------------------------------- what the steps do

  /** An enqueue records one inserted row for each sample. */
  lemma EnqueueRecords(s: System, origin: Origin, samples: seq<Sample>)
    ensures var before := s.hist.inserted;
            var after := EnqueueStep(s, origin, samples).hist.inserted;
            && |after| == |before| + |samples| && after[..|before|] == before
            && (forall i :: 0 <= i < |samples| ==>
                  after[|before| + i] == Row(s.db.nextId + i, samples[i], None, origin))
  {
  }

  /**
   The server stores a batch once, on the Ok that answers it first, one entry for each sample and its row;
   it calls a batch a duplicate only after that.
   */
  lemma ReplyExact(s: System, code: StatusCode)
    requires Enabled(s, ServerReply(code))
    ensures var (m, after) := (s.toServer[0], Apply(s, ServerReply(code)));
            && after.acks == s.acks + [Ack(m.batch.batchId, code)]
            && (m.batch.batchId in s.server.seen ==>
                  (code == Known(Ok) || code == Known(Duplicate)) && after.server == s.server)
            && (m.batch.batchId !in s.server.seen ==> code != Known(Duplicate))
            && (m.batch.batchId !in s.server.seen && code != Known(Ok) ==> after.server == s.server)
            && (m.batch.batchId !in s.server.seen && code == Known(Ok) && |m.rows| == |m.batch.samples| ==>
                  && after.server.seen == s.server.seen + {m.batch.batchId}
                  && |after.server.log| == |s.server.log| + |m.batch.samples|
                  && (forall i :: 0 <= i < |m.batch.samples| ==>
                        after.server.log[|s.server.log| + i]
                        == Entry(m.rows[i], m.batch.batchId, m.batch.datasource, m.batch.samples[i])))
  {
  }

  /** The ACK read decides by its own id and code; a code the agent does not know counts as Unspecified. */
  lemma ReadAckExact(s: System, i: nat)
    requires s.phase.Waiting? && i < |s.acks|
    ensures var phase := ReadAckStep(s, i).phase;
            if s.acks[i].batchId != s.phase.batch.batchId then phase == s.phase
            else phase == Resolved(s.phase.batch,
                                   match s.acks[i].code case Known(status) => status case Unknown(_) => Unspecified,
                                   s.phase.todo)
  {
  }

  /** Settling deletes the rows on Ok, Duplicate and Rejected, and returns them to pending on any other status. */
  lemma SettleExact(s: System)
    requires s.phase.Resolved?
    ensures var (b, after) := (s.phase.batch.batchId, SettleStep(s));
            var ids := set r | r in s.db.rows && r.batch == Some(b) :: r.id;
            && SettledBy(Known(s.phase.status), s.db, after.db, b)
            && after.hist == match s.phase.status
                             case Ok | Duplicate => s.hist.(delivered := s.hist.delivered + ids)
                             case Rejected => s.hist.(rejected := s.hist.rejected + ids)
                             case Retry | Unspecified => s.hist
  {
    var b := s.phase.batch.batchId;
    assert Ids(Tagged(s.db.rows, Some(b))) == set r | r in s.db.rows && r.batch == Some(b) :: r.id;
  }

  // ------------------------------------------------------------ on the wire

  /** What the sends of a run put on the stream, in order. */
  ghost function PutOnWire(s: System, actions: seq<Action>): seq<SampleBatch>
    decreases |actions|
  {
    if actions == [] || !Enabled(s, actions[0]) then []
    else
      Put(s, actions[0]) + PutOnWire(Apply(s, actions[0]), actions[1..])
  }

  function Batches(messages: seq<Message>): seq<SampleBatch> {
    seq(|messages|, i requires 0 <= i < |messages| => messages[i].batch)
  }

  ghost predicate NoSend(actions: seq<Action>) { forall a :: a in actions ==> !a.Send? }

  lemma {:induction false} NothingPut(s: System, actions: seq<Action>)
    requires NoSend(actions)
    ensures PutOnWire(s, actions) == []
    decreases |actions|
  {
    if actions != [] && Enabled(s, actions[0]) {
      assert actions[0] in actions;
      NothingPut(Apply(s, actions[0]), actions[1..]);
    }
  }

  /** What one action puts there. */
  ghost function Put(s: System, a: Action): seq<SampleBatch>
    requires Enabled(s, a)
  {
    if a.Send? then Batches(Apply(s, a).toServer[|s.toServer|..]) else []
  }

  lemma PutFirst(s: System, actions: seq<Action>)
    requires actions != [] && Enabled(s, actions[0])
    ensures PutOnWire(s, actions) == Put(s, actions[0]) + PutOnWire(Apply(s, actions[0]), actions[1..])
  {
  }

  lemma {:induction false} PutAppend(s: System, a: seq<Action>, t: System, b: seq<Action>)
    requires Runs(s, a, t)
    ensures PutOnWire(s, a + b) == PutOnWire(s, a) + PutOnWire(t, b)
    decreases |a|
  {
    if a == [] {
      assert a + b == b;
    } else {
      var s1 := Apply(s, a[0]);
      HeadOfAppend(a, b);
      PutFirst(s, a + b);
      PutFirst(s, a);
      PutAppend(s1, a[1..], t, b);
      AppendAssociates(Put(s, a[0]), PutOnWire(s1, a[1..]), PutOnWire(t, b));
    }
  }

  /** The streamer's batch on the wire is the batch of the message of the step relation. */
  lemma SameOnWire(cfg: Config, rows: seq<Row>, batch: ClaimedBatch)
    ensures MessageOf(cfg, rows, batch).batch == OnWire(cfg.datasource, batch)
  {
  }

  /** A round puts its batch on the wire, once. */
  lemma RoundPuts(s: System, rest: seq<Action>)
    requires s.phase.Ready? && s.phase.todo != [] && NoSend(rest)
    ensures PutOnWire(s, [Send] + rest) == [OnWire(s.cfg.datasource, s.phase.todo[0])]
  {
    var s1 := Apply(s, Send);
    var batch := s.phase.todo[0];
    assert ([Send] + rest)[1..] == rest;
    assert s1.toServer[|s.toServer|..] == [MessageOf(s.cfg, s.db.rows, batch)];
    SameOnWire(s.cfg, s.db.rows, batch);
    NothingPut(s1, rest);
  }

  lemma RoundActionsPut(s: System, stale: nat, code: StatusCode)
    requires s.phase.Ready? && s.phase.todo != []
    ensures PutOnWire(s, RoundActions(stale, code)) == [OnWire(s.cfg.datasource, s.phase.todo[0])]
  {
    var rest := [ServerReply(code)] + (ReadOldest(stale) + [ReadAck(0), Settle]);
    assert RoundActions(stale, code) == [Send] + rest;
    RoundPuts(s, rest);
  }

  lemma OthersPutNothing(s: System, claim: Action, rest: seq<Action>)
    requires Enabled(s, claim) && !claim.Send?
    ensures PutOnWire(s, [claim] + rest) == PutOnWire(Apply(s, claim), rest)
  {
    assert ([claim] + rest)[1..] == rest;
  }

  /** Reading the oldest ACK `n` times. */
  function ReadOldest(n: nat): seq<Action> { seq(n, _ => ReadAck(0)) }

  /** ACKs that do not name the awaited batch are discarded one by one. */
  lemma {:induction false} DiscardStale(s: System, n: nat)
    requires s.phase.Waiting? && n <= |s.acks|
    requires forall i :: 0 <= i < n ==> s.acks[i].batchId != s.phase.batch.batchId
    ensures Runs(s, ReadOldest(n), s.(acks := s.acks[n..])) && Draining(s, ReadOldest(n))
    decreases n
  {
    if n > 0 {
      var s1 := Apply(s, ReadAck(0));
      assert s1 == s.(acks := s.acks[1..]);
      DiscardStale(s1, n - 1);
      assert ReadOldest(n)[1..] == ReadOldest(n - 1);
      assert s1.acks[n - 1..] == s.acks[n..];
    }
  }

  /** One round against a server that answers `code`, with `stale` older ACKs on the stream. */
  function RoundActions(stale: nat, code: StatusCode): seq<Action> {
    [Send, ServerReply(code)] + (ReadOldest(stale) + [ReadAck(0), Settle])
  }

  /** The system after the batch at the head of the list has been sent and answered with `code`. */
  function AfterRound(s: System, code: StatusCode): System
    requires s.phase.Ready? && s.phase.todo != []
  {
    var claimed := s.phase.todo[0];
    SettleStep(s.(phase := Resolved(claimed, Decode(code), s.phase.todo[1..]), acks := [],
                  server := Ingest(s.server, MessageOf(s.cfg, s.db.rows, claimed), code)))
  }

  /**
   A round of the step relation. The ACK of this round is the first on the stream that names the
   batch, so `SendAndAck` stops at it, and both leave the same tables.
   */
  lemma RoundRuns(s: System, code: StatusCode)
    requires Inv(s) && s.phase.Ready? && s.phase.todo != []
    requires AnswerAllowed(s.server, s.phase.todo[0].batchId, code)
    ensures Runs(s, RoundActions(|s.acks|, code), AfterRound(s, code))
    ensures Deletes(Decode(code)) ==> Draining(s, RoundActions(|s.acks|, code))
    ensures AfterRound(s, code).db == SettledDb(s.db, s.phase.todo[0].batchId, Decode(code))
    ensures AfterRound(s, code).phase == Ready(s.phase.todo[1..])
    ensures FirstNaming(s.acks + [Ack(s.phase.todo[0].batchId, code)], s.phase.todo[0].batchId) == |s.acks|
    ensures PutOnWire(s, RoundActions(|s.acks|, code)) == [OnWire(s.cfg.datasource, s.phase.todo[0])]
  {
    RoundActionsPut(s, |s.acks|, code);
    var b := s.phase.todo[0].batchId;
    NotNamed(s, s.acks);
    FirstNamingIs(s.acks, [Ack(b, code)], b);
    RoundSteps(s, code);
  }

  lemma RoundSteps(s: System, code: StatusCode)
    requires PhaseInv(s) && s.phase.Ready? && s.phase.todo != []
    requires AnswerAllowed(s.server, s.phase.todo[0].batchId, code)
    requires forall a :: a in s.acks ==> a.batchId != s.phase.todo[0].batchId
    ensures Runs(s, RoundActions(|s.acks|, code), AfterRound(s, code))
    ensures Deletes(Decode(code)) ==> Draining(s, RoundActions(|s.acks|, code))
  {
    var b := s.phase.todo[0].batchId;
    var s1 := Apply(s, Send);
    var s2 := Apply(s1, ServerReply(code));
    SendAndReply(s, code);
    DiscardStale(s2, |s.acks|);
    var s3 := s2.(acks := [Ack(b, code)]);
    assert s2.acks[|s.acks|..] == [Ack(b, code)];
    FinishRound(s3, code);
    assert AfterRound(s, code) == SettleStep(ReadAckStep(s3, 0));
    ComposeRound(s, s1, s2, s3, AfterRound(s, code), |s.acks|, code);
  }

  lemma ComposeRound(s: System, s1: System, s2: System, s3: System, s': System, stale: nat, code: StatusCode)
    requires Enabled(s, Send) && s1 == Apply(s, Send)
    requires Enabled(s1, ServerReply(code)) && s2 == Apply(s1, ServerReply(code))
    requires Runs(s2, ReadOldest(stale), s3) && Draining(s2, ReadOldest(stale))
    requires Runs(s3, [ReadAck(0), Settle], s')
    ensures Runs(s, RoundActions(stale, code), s')
    ensures Draining(s3, [ReadAck(0), Settle]) ==> Draining(s, RoundActions(stale, code))
  {
    var tail := ReadOldest(stale) + [ReadAck(0), Settle];
    assert [Send] + ([ServerReply(code)] + tail) == RoundActions(stale, code);
    RunsAppend(s2, ReadOldest(stale), s3, [ReadAck(0), Settle], s');
    RunsCons(s1, ServerReply(code), tail, s');
    RunsCons(s, Send, [ServerReply(code)] + tail, s');
    if Draining(s3, [ReadAck(0), Settle]) {
      DrainingAppend(s2, ReadOldest(stale), s3, [ReadAck(0), Settle]);
      DrainingCons(s1, ServerReply(code), tail);
      DrainingCons(s, Send, [ServerReply(code)] + tail);
    }
  }

  lemma SendAndReply(s: System, code: StatusCode)
    requires PhaseInv(s) && s.phase.Ready? && s.phase.todo != []
    requires AnswerAllowed(s.server, s.phase.todo[0].batchId, code)
    ensures var s1 := Apply(s, Send);
            && Enabled(s1, ServerReply(code))
            && Apply(s1, ServerReply(code))
            == s.(phase := Waiting(s.phase.todo[0], s.phase.todo[1..]),
                  acks := s.acks + [Ack(s.phase.todo[0].batchId, code)],
                  server := Ingest(s.server, MessageOf(s.cfg, s.db.rows, s.phase.todo[0]), code))
  {
    assert Apply(s, Send).toServer == [MessageOf(s.cfg, s.db.rows, s.phase.todo[0])];
  }

  lemma FinishRound(s: System, code: StatusCode)
    requires s.phase.Waiting? && s.acks == [Ack(s.phase.batch.batchId, code)]
    ensures ReadAckStep(s, 0) == s.(phase := Resolved(s.phase.batch, Decode(code), s.phase.todo), acks := [])
    ensures Runs(s, [ReadAck(0), Settle], SettleStep(ReadAckStep(s, 0)))
    ensures Deletes(Decode(code)) ==> Draining(s, [ReadAck(0), Settle])
  {
    var s' := ReadAckStep(s, 0);
    assert s.acks[..0] + s.acks[1..] == [];
    assert [ReadAck(0), Settle] == [ReadAck(0)] + ([Settle] + []);
    RunsCons(s', Settle, [], SettleStep(s'));
    RunsCons(s, ReadAck(0), [Settle] + [], SettleStep(s'));
    if Deletes(Decode(code)) {
      DrainingCons(s', Settle, []);
      DrainingCons(s, ReadAck(0), [Settle] + []);
    }
  }

  lemma {:induction false} FirstNamingIs(stale: seq<Ack>, later: seq<Ack>, b: Ulid)
    requires forall a :: a in stale ==> a.batchId != b
    requires later != [] ==> later[0].batchId == b
    ensures FirstNaming(stale + later, b) == |stale|
  {
    if stale == [] {
      assert stale + later == later;
    } else {
      HeadOfAppend(stale, later);
      FirstNamingIs(stale[1..], later, b);
    }
  }

  lemma FreshUlid(used: set<Ulid>) returns (b: Ulid)
    ensures b !in used
  {
    b := 0;
    var left := used;
    while left != {}
      invariant left <= used
      invariant forall c :: c in used && c !in left ==> c < b
      decreases left
    {
      var c :| c in left;
      b := Max(b, c + 1);
      left := left - {c};
    }
  }

  lemma OneDrainRound(s: System) returns (round: seq<Action>, s': System)
    requires Inv(s) && s.phase == Ready([]) && s.db.rows != []
    ensures Runs(s, round, s') && Draining(s, round)
    ensures Inv(s') && s'.phase == Ready([]) && |s'.db.rows| < |s.db.rows|
  {
    var b := FreshUlid(s.hist.claims.Keys);
    var claim := Action.Claim(b, 0);
    assert Enabled(s, claim) by { CanClaim(s, b); }
    var s1 := Apply(s, claim);
    assert Inv(s1) by { StepKeepsInv(s, claim); }
    assert AnswerAllowed(s1.server, b, Known(Ok));
    RoundRuns(s1, Known(Ok));
    s' := AfterRound(s1, Known(Ok));
    var actions := RoundActions(|s1.acks|, Known(Ok));
    assert Inv(s') by { RunKeepsInv(s1, actions, s'); }
    RunsCons(s, claim, actions, s');
    DrainingCons(s, claim, actions);
    round := [claim] + actions;
    assert |s'.db.rows| < |s.db.rows| by { RoundShrinks(s1, b); }
  }

  lemma CanClaim(s: System, b: Ulid)
    requires TableInv(s) && BatchInv(s) && PhaseInv(s) && s.phase == Ready([]) && s.db.rows != []
    requires b !in s.hist.claims
    ensures Enabled(s, Action.Claim(b, 0))
  {
    NothingClaimed(s);
    assert s.db.rows[0] in Pending(s.db.rows);
    NextClaimFacts(s.db.rows, s.cfg.maxBatch);
  }

  lemma {:induction false} DrainFromIdle(s: System) returns (actions: seq<Action>, s': System)
    requires Inv(s) && s.phase == Ready([])
    ensures Runs(s, actions, s') && Draining(s, actions)
    ensures s'.db.rows == [] && s'.phase == Ready([])
    decreases |s.db.rows|
  {
    if s.db.rows == [] {
      return [], s;
    }
    var round, s1 := OneDrainRound(s);
    var rest;
    rest, s' := DrainFromIdle(s1);
    actions := round + rest;
    RunsAppend(s, round, s1, rest, s');
    DrainingAppend(s, round, s1, rest);
  }

  lemma OneStep(s: System, a: Action)
    requires Enabled(s, a) && !a.Enqueue? && !a.Settle?
    ensures Runs(s, [a], Apply(s, a)) && Draining(s, [a])
  {
    assert [a][1..] == [] && Runs(Apply(s, a), [], Apply(s, a));
  }

  /** `actions` lead from `s` to `t` without enqueues, deleting every batch they settle. */
  ghost predicate DrainPath(s: System, actions: seq<Action>, t: System) { Runs(s, actions, t) && Draining(s, actions) }

  lemma PathAppend(s: System, a: seq<Action>, t: System, b: seq<Action>, u: System)
    requires DrainPath(s, a, t) && DrainPath(t, b, u)
    ensures DrainPath(s, a + b, u)
  {
    RunsAppend(s, a, t, b, u);
    DrainingAppend(s, a, t, b);
  }

  /** The only order in which the at most one batch in flight can be read back. */
  lemma TheOrder(s: System) returns (order: seq<Ulid>)
    requires BatchInv(s)
    ensures RecoveryOrder(order, s.db.inFlight) && |order| <= 1
  {
    if s.db.inFlight == map[] {
      order := [];
    } else {
      var b :| b in s.db.inFlight;
      order := [b];
    }
  }

  /** A batch that waits to be sent is ingested, or was before, and deleted. */
  lemma SettleFirst(s: System) returns (actions: seq<Action>, s': System)
    requires Inv(s) && s.phase.Ready? && |s.phase.todo| == 1
    ensures DrainPath(s, actions, s') && Inv(s') && s'.phase == Ready([])
  {
    var code := Known(if s.phase.todo[0].batchId in s.server.seen then Duplicate else Ok);
    RoundRuns(s, code);
    RoundKeepsInv(s, code);
    actions, s' := RoundActions(|s.acks|, code), AfterRound(s, code);
  }

  /** From a new stream the loop gets idle again: recovery settles what is in flight. */
  lemma GetIdle(s: System) returns (actions: seq<Action>, s': System)
    requires Inv(s) && s.phase == Opened
    ensures DrainPath(s, actions, s') && Inv(s') && s'.phase == Ready([])
  {
    var order := TheOrder(s);
    var recover := Recover(order);
    var s1 := Apply(s, recover);
    OneStep(s, recover);
    assert Inv(s1) by { StepKeepsInv(s, recover); }
    if order == [] {
      return [recover], s1;
    }
    var round;
    round, s' := SettleFirst(s1);
    PathAppend(s, [recover], s1, round, s');
    actions := [recover] + round;
  }

  /** From every state a new stream can be opened. */
  lemma GetOpened(s: System) returns (actions: seq<Action>, s': System)
    requires Inv(s)
    ensures DrainPath(s, actions, s') && Inv(s') && s'.phase == Opened
  {
    actions, s' := [], s;
    if s.phase != Disconnected {
      OneStep(s, Disconnect);
      StepKeepsInv(s, Disconnect);
      actions, s' := [Disconnect], Apply(s, Disconnect);
    }
    var s1 := s';
    OneStep(s1, Connect);
    StepKeepsInv(s1, Connect);
    PathAppend(s, actions, s1, [Connect], Apply(s1, Connect));
    return actions + [Connect], Apply(s1, Connect);
  }

  lemma DrainFromAnywhere(s: System) returns (actions: seq<Action>, s': System)
    requires Inv(s)
    ensures DrainPath(s, actions, s') && s'.db.rows == [] && s'.phase == Ready([])
  {
    var open, s1 := GetOpened(s);
    var idle, s2 := GetIdle(s1);
    var drain;
    drain, s' := DrainFromIdle(s2);
    PathAppend(s1, idle, s2, drain, s');
    PathAppend(s, open, s1, idle + drain, s');
    actions := open + (idle + drain);
  }

  /**
   The buffer can always be drained: from every reachable state there is a run without enqueues, with
   every batch deleted, that empties the table, and it takes exactly as many rounds as are left: one for
   the batch in flight and the sum over origins of ceil(pending rows / maxBatch).
   */
  lemma DrainExists(cfg: Config, prefix: seq<Action>, s: System) returns (actions: seq<Action>, s': System)
    requires Reachable(cfg, prefix, s)
    ensures Runs(s, actions, s') && Draining(s, actions)
    ensures s'.db.rows == [] && s'.phase == Ready([])
    ensures s.cfg.maxBatch > 0 && Rounds(s, actions) == RoundsLeft(s, Origins(s.db.rows))
  {
    ReachableInv(cfg, prefix, s);
    actions, s' := DrainFromAnywhere(s);
    DrainCounts(s, actions, s', Origins(s.db.rows));
    NoRoundsLeft(s', Origins(s.db.rows));
  }

  lemma RoundShrinks(s: System, b: Ulid)
    requires Valid(s.db) && b in s.db.inFlight
    ensures |AckOkDb(s.db, b).rows| < |s.db.rows|
  {
    SelectSplits(s.db.rows, HasBatch(Some(b)), (x: Row) => x.batch != Some(b));
  }

  // ------------------------------------------------------- attempts as runs

  /** What the stream delivers after a batch is sent: ACKs it delivered before, and the one for this batch, if any. */
  datatype Heard = Heard(stale: seq<Ack>, answer: Option<StatusCode>)

  function AckSet(acks: seq<Ack>): set<Ack> { set a | a in acks }

  /** An ACK on the stream is read while a copy of it stays there. */
  lemma ReadCopy(s: System, a: Ack) returns (actions: seq<Action>, s': System)
    requires s.phase.Waiting? && a in s.acks
    ensures Runs(s, actions, s') && NoSend(actions) && AckSet(s'.acks) == AckSet(s.acks)
    ensures s' == match ResolveAck(a, s.phase.batch.batchId)
                  case Some(status) => s.(phase := Resolved(s.phase.batch, status, s.phase.todo), acks := s'.acks)
                  case None => s.(acks := s'.acks)
  {
    var i :| 0 <= i < |s.acks| && s.acks[i] == a;
    var s1 := Apply(s, DuplicateAck(i));
    s' := Apply(s1, ReadAck(i));
    CopyStays(s.acks, i);
    RunsCons(s1, ReadAck(i), [], s');
    RunsCons(s, DuplicateAck(i), [ReadAck(i)] + [], s');
    actions := [DuplicateAck(i)] + ([ReadAck(i)] + []);
  }

  lemma CopyStays(acks: seq<Ack>, i: nat)
    requires i < |acks|
    ensures var two := acks + [acks[i]];
            two[i] == acks[i] && AckSet(two[..i] + two[i + 1..]) == AckSet(acks)
  {
    var two := acks + [acks[i]];
    var left := two[..i] + two[i + 1..];
    assert left == acks[..i] + acks[i + 1..] + [acks[i]];
    assert acks == acks[..i] + [acks[i]] + acks[i + 1..];
  }

  /** Stale ACKs are read one after the other, and may all be read again. */
  lemma {:induction false} ReadStale(s: System, stale: seq<Ack>) returns (actions: seq<Action>, s': System)
    requires s.phase.Waiting? && AckSet(stale) <= AckSet(s.acks)
    requires forall a :: a in stale ==> a.batchId != s.phase.batch.batchId
    ensures Runs(s, actions, s') && NoSend(actions)
    ensures AckSet(s'.acks) == AckSet(s.acks) && s' == s.(acks := s'.acks)
    decreases |stale|
  {
    if stale == [] {
      return [], s;
    }
    assert stale[0] in AckSet(stale);
    var first, s1 := ReadCopy(s, stale[0]);
    assert AckSet(stale[1..]) <= AckSet(stale);
    var rest;
    rest, s' := ReadStale(s1, stale[1..]);
    RunsAppend(s, first, s1, rest, s');
    actions := first + rest;
  }

  /** Waiting for an ACK that is on the stream, with `stale` read before it. */
  lemma ReadPastStale(s: System, stale: seq<Ack>, own: Ack) returns (actions: seq<Action>, s': System)
    requires s.phase.Waiting? && own in s.acks && own.batchId == s.phase.batch.batchId
    requires AckSet(stale) <= AckSet(s.acks)
    requires forall a :: a in stale ==> a.batchId != s.phase.batch.batchId
    ensures Runs(s, actions, s') && NoSend(actions) && AckSet(s'.acks) == AckSet(s.acks)
    ensures s' == s.(phase := Resolved(s.phase.batch, Decode(own.code), s.phase.todo), acks := s'.acks)
  {
    var past, s1 := ReadStale(s, stale);
    assert own in AckSet(s1.acks);
    var read;
    read, s' := ReadCopy(s1, own);
    RunsAppend(s, past, s1, read, s');
    actions := past + read;
  }

  /** Everything of a round but its last action. */
  lemma SentPastStale(s: System, stale: seq<Ack>, code: StatusCode) returns (actions: seq<Action>, s': System)
    requires PhaseInv(s) && ChannelInv(s) && s.phase.Ready? && s.phase.todo != [] && AckSet(stale) <= AckSet(s.acks)
    requires AnswerAllowed(s.server, s.phase.todo[0].batchId, code)
    ensures Runs(s, actions, s') && AckSet(s'.acks) == AckSet(s.acks) + {Ack(s.phase.todo[0].batchId, code)}
    ensures actions != [] && actions[0] == Send && NoSend(actions[1..])
    ensures s' == s.(phase := Resolved(s.phase.todo[0], Decode(code), s.phase.todo[1..]), acks := s'.acks,
                     server := Ingest(s.server, MessageOf(s.cfg, s.db.rows, s.phase.todo[0]), code))
  {
    var own := Ack(s.phase.todo[0].batchId, code);
    var s1 := Apply(s, Send);
    var s2 := Apply(s1, ServerReply(code));
    SendAndReply(s, code);
    NotNamed(s, stale);
    assert AckSet(s2.acks) == AckSet(s.acks) + {own};
    var read;
    read, s' := ReadPastStale(s2, stale, own);
    RunsCons(s1, ServerReply(code), read, s');
    RunsCons(s, Send, [ServerReply(code)] + read, s');
    actions := [Send] + ([ServerReply(code)] + read);
  }

  lemma RunPastStale(s: System, stale: seq<Ack>, code: StatusCode) returns (actions: seq<Action>, s': System)
    requires PhaseInv(s) && ChannelInv(s) && s.phase.Ready? && s.phase.todo != [] && AckSet(stale) <= AckSet(s.acks)
    requires AnswerAllowed(s.server, s.phase.todo[0].batchId, code)
    ensures Runs(s, actions, s') && s' == AfterRound(s, code).(acks := s'.acks)
    ensures AckSet(s'.acks) == AckSet(s.acks) + {Ack(s.phase.todo[0].batchId, code)}
    ensures PutOnWire(s, actions) == [OnWire(s.cfg.datasource, s.phase.todo[0])]
  {
    var sent, s1 := SentPastStale(s, stale, code);
    s' := SettleStep(s1);
    RunsCons(s1, Settle, [], s');
    RunsAppend(s, sent, s1, [Settle] + [], s');
    actions := sent + ([Settle] + []);
    RoundPuts(s, sent[1..] + ([Settle] + []));
    assert actions == [Send] + (sent[1..] + ([Settle] + []));
    SettledRound(s, s1, code);
  }

  /** A round in which `stale` is read before the ACK of this round; all of them may be read again. */
  lemma RoundPastStale(s: System, stale: seq<Ack>, code: StatusCode) returns (actions: seq<Action>, s': System)
    requires Inv(s) && s.phase.Ready? && s.phase.todo != [] && AckSet(stale) <= AckSet(s.acks)
    requires AnswerAllowed(s.server, s.phase.todo[0].batchId, code)
    ensures Runs(s, actions, s') && Inv(s') && s' == AfterRound(s, code).(acks := s'.acks)
    ensures AckSet(s'.acks) == AckSet(s.acks) + {Ack(s.phase.todo[0].batchId, code)}
    ensures PutOnWire(s, actions) == [OnWire(s.cfg.datasource, s.phase.todo[0])]
  {
    actions, s' := RunPastStale(s, stale, code);
    RunKeepsInv(s, actions, s');
  }

  lemma SettledRound(s: System, s1: System, code: StatusCode)
    requires s.phase.Ready? && s.phase.todo != []
    requires s1 == s.(phase := Resolved(s.phase.todo[0], Decode(code), s.phase.todo[1..]), acks := s1.acks,
                      server := Ingest(s.server, MessageOf(s.cfg, s.db.rows, s.phase.todo[0]), code))
    ensures SettleStep(s1) == AfterRound(s, code).(acks := SettleStep(s1).acks) && SettleStep(s1).acks == s1.acks
  {
  }

  lemma NotNamed(s: System, stale: seq<Ack>)
    requires PhaseInv(s) && ChannelInv(s) && s.phase.Ready? && s.phase.todo != [] && AckSet(stale) <= AckSet(s.acks)
    ensures forall a :: a in stale ==> a.batchId != s.phase.todo[0].batchId
  {
    forall a | a in stale ensures a.batchId != s.phase.todo[0].batchId {
      assert a in AckSet(stale) && a in AckSet(s.acks) && a in s.acks;
    }
  }

  /** The stream ends under a batch sent, after `stale` is read. */
  lemma LostRound(s: System, stale: seq<Ack>) returns (actions: seq<Action>, s': System)
    requires Inv(s) && s.phase.Ready? && s.phase.todo != [] && AckSet(stale) <= AckSet(s.acks)
    ensures Runs(s, actions, s') && Inv(s') && s' == s.(phase := Disconnected, toServer := [], acks := [])
    ensures PutOnWire(s, actions) == [OnWire(s.cfg.datasource, s.phase.todo[0])]
  {
    var s1 := Apply(s, Send);
    NotNamed(s, stale);
    var past, s2 := ReadStale(s1, stale);
    s' := Apply(s2, Disconnect);
    RunsCons(s2, Disconnect, [], s');
    RunsAppend(s1, past, s2, [Disconnect] + [], s');
    actions := [Send] + (past + ([Disconnect] + []));
    RunsCons(s, Send, past + ([Disconnect] + []), s');
    RoundPuts(s, past + ([Disconnect] + []));
    assert Inv(s') by { RunKeepsInv(s, actions, s'); }
  }

  predicate Alive(s: System) { s.phase == Ready([]) }

  predicate Idle(db: Db, maxBatch: nat) { NextClaim(db.rows, maxBatch) == [] }

  /** The tables after a poll with fresh id `b`. */
  function PollDb(db: Db, maxBatch: nat, b: Ulid, nowMs: int, answer: Option<StatusCode>): Db {
    if Idle(db, maxBatch) then db
    else if answer == None then ClaimDb(db, maxBatch, b, nowMs)
    else SettledDb(ClaimDb(db, maxBatch, b, nowMs), b, Decode(answer.value))
  }

  function OwnAck(b: Ulid, answer: Option<StatusCode>): seq<Ack> {
    if answer == None then [] else [Ack(b, answer.value)]
  }

  /** The ACKs the stream delivers while the claim loop polls; an unanswered batch ends it. */
  function Inbound(db: Db, maxBatch: nat, ids: seq<Ulid>, nowMs: int, heard: seq<Heard>): seq<Ack>
    requires |heard| == |ids|
    decreases |ids|
  {
    if ids == [] then []
    else
      var next := PollDb(db, maxBatch, ids[0], nowMs, heard[0].answer);
      if Idle(db, maxBatch) then Inbound(next, maxBatch, ids[1..], nowMs, heard[1..])
      else if heard[0].answer == None then heard[0].stale
      else
        heard[0].stale + OwnAck(ids[0], heard[0].answer) + Inbound(next, maxBatch, ids[1..], nowMs, heard[1..])
  }

  /** Every stale ACK was delivered before on this stream: it is in `known`, or the answer to an earlier poll. */
  ghost predicate OnlyKnown(db: Db, known: set<Ack>, maxBatch: nat, ids: seq<Ulid>, nowMs: int, heard: seq<Heard>)
    requires |heard| == |ids|
    decreases |ids|
  {
    ids == [] ||
    (var next := PollDb(db, maxBatch, ids[0], nowMs, heard[0].answer);
     if Idle(db, maxBatch) then OnlyKnown(next, known, maxBatch, ids[1..], nowMs, heard[1..])
     else
       && AckSet(heard[0].stale) <= known
       && (heard[0].answer == None
           || OnlyKnown(next, known + AckSet(OwnAck(ids[0], heard[0].answer)), maxBatch, ids[1..], nowMs, heard[1..])))
  }

  /** No server claims to know a batch it is sent for the first time. */
  predicate FirstAnswers(heard: seq<Heard>) {
    forall h :: h in heard && h.answer.Some? ==> Decode(h.answer.value) != Duplicate
  }

  /** The fresh ids of an attempt: new and distinct. */
  ghost predicate Fresh(s: System, ids: seq<Ulid>) {
    && (forall b :: b in ids ==> b !in s.hist.claims)
    && (forall i, j :: 0 <= i < j < |ids| ==> ids[i] != ids[j])
  }

  /** Sending against stale ACKs, the one for this batch if there is any, and those of later rounds. */
  lemma SendMatches(p: Progress, datasource: string, batch: ClaimedBatch, stale: seq<Ack>, own: seq<Ack>,
                    later: seq<Ack>)
    requires p.acks == stale + own + later && forall a :: a in stale ==> a.batchId != batch.batchId
    requires |own| <= 1 && (own != [] ==> own[0].batchId == batch.batchId) && (own == [] ==> later == [])
    ensures var sent := p.sent + [OnWire(datasource, batch)];
            AfterSend(p, datasource, batch)
            == if own == [] then Progress(p.db, [], sent, false)
               else Progress(SettledDb(p.db, batch.batchId, Decode(own[0].code)), later, sent, true)
  {
    assert p.acks == stale + (own + later);
    FirstNamingIs(stale, own + later, batch.batchId);
    assert own != [] ==> p.acks[|stale|] == own[0] && p.acks[|stale| + 1..] == later;
  }

  lemma AfterRoundIs(s: System, code: StatusCode)
    requires s.phase.Ready? && s.phase.todo != []
    ensures AfterRound(s, code).db == SettledDb(s.db, s.phase.todo[0].batchId, Decode(code))
    ensures AfterRound(s, code).acks == [] && AfterRound(s, code).phase == Ready(s.phase.todo[1..])
    ensures AfterRound(s, code).hist.claims == s.hist.claims && AfterRound(s, code).cfg == s.cfg
  {
  }

  lemma RoundKeepsInv(s: System, code: StatusCode)
    requires Inv(s) && s.phase.Ready? && s.phase.todo != []
    requires AnswerAllowed(s.server, s.phase.todo[0].batchId, code)
    ensures Inv(AfterRound(s, code))
  {
    RoundRuns(s, code);
    RunKeepsInv(s, RoundActions(|s.acks|, code), AfterRound(s, code));
  }

  /** One poll as a run. */
  lemma PollIsRun(s: System, b: Ulid, nowMs: int, h: Heard) returns (actions: seq<Action>, s': System)
    requires Inv(s) && Alive(s) && !Idle(s.db, s.cfg.maxBatch) && b !in s.hist.claims
    requires AckSet(h.stale) <= AckSet(s.acks) && (h.answer.Some? ==> Decode(h.answer.value) != Duplicate)
    ensures Runs(s, actions, s') && Inv(s') && s'.cfg == s.cfg
    ensures s'.db == PollDb(s.db, s.cfg.maxBatch, b, nowMs, h.answer)
    ensures s'.hist.claims.Keys == s.hist.claims.Keys + {b} && (Alive(s') <==> h.answer.Some?)
    ensures h.answer.Some? ==> AckSet(s'.acks) == AckSet(s.acks) + AckSet(OwnAck(b, h.answer))
    ensures PutOnWire(s, actions)
         == [OnWire(s.cfg.datasource, BatchOf(ClaimDb(s.db, s.cfg.maxBatch, b, nowMs).rows, b))]
  {
    var claim := Action.Claim(b, nowMs);
    var s1 := ClaimStep(s, b, nowMs);
    StepKeepsInv(s, claim);
    Claimed(s, b, nowMs);
    actions, s' := ClaimedIsRun(s1, b, h);
    RunsCons(s, claim, actions, s');
    OthersPutNothing(s, claim, actions);
    actions := [claim] + actions;
  }

  lemma Claimed(s: System, b: Ulid, nowMs: int)
    requires LogInv(s) && b !in s.hist.claims
    ensures var s1 := ClaimStep(s, b, nowMs);
            && s1.phase.Ready? && |s1.phase.todo| == 1 && s1.phase.todo[0].batchId == b && b !in s1.server.seen
            && s1.acks == s.acks && s1.cfg == s.cfg && s1.hist.claims.Keys == s.hist.claims.Keys + {b}
            && s1.db == ClaimDb(s.db, s.cfg.maxBatch, b, nowMs)
            && s1.phase.todo[0] == BatchOf(ClaimDb(s.db, s.cfg.maxBatch, b, nowMs).rows, b)
  {
  }

  lemma ClaimedIsRun(s: System, b: Ulid, h: Heard) returns (actions: seq<Action>, s': System)
    requires Inv(s) && s.phase.Ready? && |s.phase.todo| == 1 && s.phase.todo[0].batchId == b && b !in s.server.seen
    requires AckSet(h.stale) <= AckSet(s.acks) && (h.answer.Some? ==> Decode(h.answer.value) != Duplicate)
    ensures Runs(s, actions, s') && Inv(s') && s'.cfg == s.cfg && s'.hist.claims == s.hist.claims
    ensures s'.db == if h.answer == None then s.db else SettledDb(s.db, b, Decode(h.answer.value))
    ensures Alive(s') <==> h.answer.Some?
    ensures h.answer.Some? ==> AckSet(s'.acks) == AckSet(s.acks) + AckSet(OwnAck(b, h.answer))
    ensures PutOnWire(s, actions) == [OnWire(s.cfg.datasource, s.phase.todo[0])]
  {
    if h.answer.Some? {
      AfterRoundIs(s, h.answer.value);
      actions, s' := RoundPastStale(s, h.stale, h.answer.value);
    } else {
      actions, s' := LostRound(s, h.stale);
    }
  }

  /** What the streamer makes of that poll, the ACKs of later rounds being still to come. */
  lemma PollMatches(db: Db, datasource: string, maxBatch: nat, b: Ulid, nowMs: int, h: Heard, later: seq<Ack>,
                    sent: seq<SampleBatch>)
    requires !Idle(db, maxBatch) && (h.answer == None ==> later == []) && forall a :: a in h.stale ==> a.batchId != b
    ensures AfterPoll(Progress(db, h.stale + OwnAck(b, h.answer) + later, sent, true), datasource, maxBatch, b, nowMs)
         == Progress(PollDb(db, maxBatch, b, nowMs, h.answer), later,
                     sent + [OnWire(datasource, BatchOf(ClaimDb(db, maxBatch, b, nowMs).rows, b))], h.answer.Some?)
  {
    var claimed := ClaimDb(db, maxBatch, b, nowMs);
    var p := Progress(claimed, h.stale + OwnAck(b, h.answer) + later, sent, true);
    SendMatches(p, datasource, BatchOf(claimed.rows, b), h.stale, OwnAck(b, h.answer), later);
  }

  /** What a claim loop needs to be a run. */
  ghost predicate LoopPossible(s: System, ids: seq<Ulid>, nowMs: int, heard: seq<Heard>) {
    && Inv(s) && Alive(s) && Fresh(s, ids) && |heard| == |ids| && FirstAnswers(heard)
    && OnlyKnown(s.db, AckSet(s.acks), s.cfg.maxBatch, ids, nowMs, heard)
  }

  lemma FreshRest(s: System, s1: System, ids: seq<Ulid>, heard: seq<Heard>)
    requires Fresh(s, ids) && ids != [] && |heard| == |ids| && FirstAnswers(heard)
    requires s1.hist.claims.Keys <= s.hist.claims.Keys + {ids[0]}
    ensures Fresh(s1, ids[1..]) && FirstAnswers(heard[1..])
  {
    forall b | b in ids[1..] ensures b in ids && b != ids[0] {
      var i :| 0 <= i < |ids[1..]| && ids[1..][i] == b;
      assert ids[i + 1] == b;
    }
  }

  lemma StaleIsOlder(s: System, stale: seq<Ack>, b: Ulid)
    requires ChannelInv(s) && AckSet(stale) <= AckSet(s.acks) && b !in s.hist.claims
    ensures forall a :: a in stale ==> a.batchId != b
  {
    forall a | a in stale ensures a.batchId != b {
      assert a in AckSet(stale) && a in AckSet(s.acks) && a in s.acks;
    }
  }

  lemma FirstPoll(s: System, ids: seq<Ulid>, nowMs: int, heard: seq<Heard>) returns (actions: seq<Action>, s': System)
    requires LoopPossible(s, ids, nowMs, heard) && ids != [] && !Idle(s.db, s.cfg.maxBatch)
    ensures Runs(s, actions, s') && s'.cfg == s.cfg && (Alive(s') <==> heard[0].answer.Some?)
    ensures s'.db == PollDb(s.db, s.cfg.maxBatch, ids[0], nowMs, heard[0].answer)
    ensures PutOnWire(s, actions)
         == [OnWire(s.cfg.datasource, BatchOf(ClaimDb(s.db, s.cfg.maxBatch, ids[0], nowMs).rows, ids[0]))]
    ensures Alive(s') ==> LoopPossible(s', ids[1..], nowMs, heard[1..])
    ensures forall a :: a in heard[0].stale ==> a.batchId != ids[0]
  {
    var b, h := ids[0], heard[0];
    assert b in ids && h in heard;
    StaleIsOlder(s, h.stale, b);
    actions, s' := PollIsRun(s, b, nowMs, h);
    FreshRest(s, s', ids, heard);
    if Alive(s') {
      KnownRest(s.db, s'.db, AckSet(s.acks), AckSet(s'.acks), s.cfg.maxBatch, ids, nowMs, heard);
    }
  }

  lemma KnownRest(db: Db, next: Db, known: set<Ack>, now: set<Ack>, maxBatch: nat, ids: seq<Ulid>, nowMs: int,
                  heard: seq<Heard>)
    requires |heard| == |ids| && ids != [] && !Idle(db, maxBatch) && heard[0].answer.Some?
    requires OnlyKnown(db, known, maxBatch, ids, nowMs, heard)
    requires next == PollDb(db, maxBatch, ids[0], nowMs, heard[0].answer)
    requires now == known + AckSet(OwnAck(ids[0], heard[0].answer))
    ensures OnlyKnown(next, now, maxBatch, ids[1..], nowMs, heard[1..])
  {
  }

  lemma PollsGoOn(db: Db, datasource: string, maxBatch: nat, ids: seq<Ulid>, nowMs: int, heard: seq<Heard>,
                  sent: seq<SampleBatch>)
    requires ids != [] && |heard| == |ids| && !Idle(db, maxBatch)
    requires forall a :: a in heard[0].stale ==> a.batchId != ids[0]
    ensures var (b, answer) := (ids[0], heard[0].answer);
            var after := PollDb(db, maxBatch, b, nowMs, answer);
            var later := if answer == None then [] else Inbound(after, maxBatch, ids[1..], nowMs, heard[1..]);
            var now := sent + [OnWire(datasource, BatchOf(ClaimDb(db, maxBatch, b, nowMs).rows, b))];
            var inbound := Inbound(db, maxBatch, ids, nowMs, heard);
            AfterPolls(Progress(db, inbound, sent, true), datasource, maxBatch, ids, nowMs)
            == AfterPolls(Progress(after, later, now, answer.Some?), datasource, maxBatch, ids[1..], nowMs)
  {
    var h := heard[0];
    var later := if h.answer == None then []
                 else Inbound(PollDb(db, maxBatch, ids[0], nowMs, h.answer), maxBatch, ids[1..], nowMs, heard[1..]);
    assert h.answer == None ==> h.stale + OwnAck(ids[0], h.answer) + later == h.stale;
    PollMatches(db, datasource, maxBatch, ids[0], nowMs, h, later, sent);
  }

  /**
   The claim loop as a run: for every list of fresh ids, and for every list of answers, a missing one ending
   the stream, between which the stream delivers earlier ACKs again in any order and number, there is a run
   of the step relation, and `AfterPolls` against exactly those inbound ACKs ends in the same tables, having
   sent exactly what the sends of that run put on the stream.
   */
  lemma {:induction false} PollsAreRuns(s: System, ids: seq<Ulid>, nowMs: int, heard: seq<Heard>,
                                        sent: seq<SampleBatch>)
    returns (actions: seq<Action>, s': System)
    requires LoopPossible(s, ids, nowMs, heard)
    ensures Runs(s, actions, s')
    ensures var inbound := Inbound(s.db, s.cfg.maxBatch, ids, nowMs, heard);
            AfterPolls(Progress(s.db, inbound, sent, true), s.cfg.datasource, s.cfg.maxBatch, ids, nowMs)
            == Progress(s'.db, [], sent + PutOnWire(s, actions), Alive(s'))
    decreases |ids|
  {
    if ids == [] {
      assert sent + PutOnWire(s, []) == sent;
      return [], s;
    }
    if Idle(s.db, s.cfg.maxBatch) {
      FreshRest(s, s, ids, heard);
      actions, s' := PollsAreRuns(s, ids[1..], nowMs, heard[1..], sent);
      return;
    }
    var first, s1 := FirstPoll(s, ids, nowMs, heard);
    PollsGoOn(s.db, s.cfg.datasource, s.cfg.maxBatch, ids, nowMs, heard, sent);
    if heard[0].answer == None {
      return first, s1;
    }
    var rest;
    rest, s' := PollsAreRuns(s1, ids[1..], nowMs, heard[1..], sent + PutOnWire(s, first));
    RunsAppend(s, first, s1, rest, s');
    PutAppend(s, first, s1, rest);
    AppendAssociates(sent, PutOnWire(s, first), PutOnWire(s1, rest));
    actions := first + rest;
  }

  /** The tables after recovery, and the ACKs the stream delivers over a whole attempt. */
  function RecoveredDb(db: Db, order: seq<Ulid>, first: Option<StatusCode>): Db {
    if order == [] || first == None then db else SettledDb(db, order[0], Decode(first.value))
  }

  function FirstAck(order: seq<Ulid>, first: Option<StatusCode>): seq<Ack> {
    if order == [] then [] else OwnAck(order[0], first)
  }

  function AttemptInbound(db: Db, order: seq<Ulid>, first: Option<StatusCode>, maxBatch: nat, ids: seq<Ulid>,
                          nowMs: int, heard: seq<Heard>): seq<Ack>
    requires |heard| == |ids|
  {
    FirstAck(order, first)
    + if order != [] && first == None then [] else Inbound(RecoveredDb(db, order, first), maxBatch, ids, nowMs, heard)
  }

  /** The batch read back by recovery, answered or not. */
  lemma ResendIsRun(s: System, first: Option<StatusCode>) returns (actions: seq<Action>, s': System)
    requires Inv(s) && s.phase.Ready? && |s.phase.todo| == 1 && s.acks == []
    requires first.Some? ==> AnswerAllowed(s.server, s.phase.todo[0].batchId, first.value)
    ensures Runs(s, actions, s') && Inv(s') && s'.cfg == s.cfg && s'.hist.claims == s.hist.claims
    ensures s'.db == RecoveredDb(s.db, [s.phase.todo[0].batchId], first) && (Alive(s') <==> first.Some?)
    ensures AckSet(s'.acks) == AckSet(OwnAck(s.phase.todo[0].batchId, first))
    ensures PutOnWire(s, actions) == [OnWire(s.cfg.datasource, s.phase.todo[0])]
  {
    if first.Some? {
      AfterRoundIs(s, first.value);
      actions, s' := RoundPastStale(s, [], first.value);
    } else {
      actions, s' := LostRound(s, []);
    }
  }

  /** The same for the streamer, `later` being the ACKs of the claim loop. */
  lemma ResendMatches(db: Db, datasource: string, batch: ClaimedBatch, first: Option<StatusCode>, later: seq<Ack>)
    requires first == None ==> later == []
    ensures AfterResend(Progress(db, OwnAck(batch.batchId, first) + later, [], true), datasource, [batch])
         == Progress(RecoveredDb(db, [batch.batchId], first), later, [OnWire(datasource, batch)], first.Some?)
  {
    var own := OwnAck(batch.batchId, first);
    var p := Progress(db, own + later, [], true);
    assert p.acks == [] + own + later && p.sent + [OnWire(datasource, batch)] == [OnWire(datasource, batch)];
    SendMatches(p, datasource, batch, [], own, later);
    assert [batch][1..] == [];
  }

  lemma RecoveredOne(s: System, order: seq<Ulid>)
    requires BatchInv(s) && RecoveryOrder(order, s.db.inFlight)
    ensures |order| <= 1
  {
    if |order| > 1 {
      SamePlace(order, s.db.inFlight, 0, 1);
    }
  }

  /** What an attempt needs to be a run. */
  ghost predicate AttemptPossible(s: System, order: seq<Ulid>, first: Option<StatusCode>, ids: seq<Ulid>, nowMs: int,
                                  heard: seq<Heard>)
  {
    && Fresh(s, ids) && |heard| == |ids| && FirstAnswers(heard)
    && (order != [] && first.Some? ==> AnswerAllowed(s.server, order[0], first.value))
    && (order == [] || first.Some? ==>
          OnlyKnown(RecoveredDb(s.db, order, first), AckSet(FirstAck(order, first)), s.cfg.maxBatch, ids, nowMs, heard))
  }

  /**
   A whole attempt as a run. From every state with a new stream, for every list of fresh ids and every
   list of answers the server may give, a missing one ending the stream, between which the stream delivers
   earlier ACKs again in any order and number: there is a run of the step relation, and the streamer, reading
   exactly those inbound ACKs, leaves the same tables and has sent exactly what the sends of that run put on
   the stream.
   */
  lemma AttemptIsRun(s: System, order: seq<Ulid>, first: Option<StatusCode>, ids: seq<Ulid>, nowMs: int,
                     heard: seq<Heard>)
    returns (actions: seq<Action>, s': System)
    requires Inv(s) && s.phase == Opened && RecoveryOrder(order, s.db.inFlight)
    requires AttemptPossible(s, order, first, ids, nowMs, heard)
    ensures Runs(s, actions, s')
    ensures var inbound := AttemptInbound(s.db, order, first, s.cfg.maxBatch, ids, nowMs, heard);
            AfterAttempt(Progress(s.db, inbound, [], true), s.cfg.datasource, order, s.cfg.maxBatch, ids, nowMs)
            == Progress(s'.db, [], PutOnWire(s, actions), Alive(s'))
  {
    var recover := Recover(order);
    var s1 := s.(phase := Ready(Recovered(s.db.rows, order)));
    assert Inv(s1) && s1.acks == [] && |order| <= 1 by {
      StepKeepsInv(s, recover);
      RecoveredOne(s, order);
    }
    actions, s' := AttemptFrom(s1, order, first, ids, nowMs, heard);
    RunsCons(s, recover, actions, s');
    OthersPutNothing(s, recover, actions);
    actions := [recover] + actions;
  }

  /** The attempt once the snapshot is read. */
  lemma AttemptFrom(s: System, order: seq<Ulid>, first: Option<StatusCode>, ids: seq<Ulid>, nowMs: int,
                    heard: seq<Heard>)
    returns (actions: seq<Action>, s': System)
    requires Inv(s) && s.phase == Ready(Recovered(s.db.rows, order)) && |order| <= 1 && s.acks == []
    requires AttemptPossible(s, order, first, ids, nowMs, heard)
    ensures Runs(s, actions, s')
    ensures var inbound := AttemptInbound(s.db, order, first, s.cfg.maxBatch, ids, nowMs, heard);
            AfterAttempt(Progress(s.db, inbound, [], true), s.cfg.datasource, order, s.cfg.maxBatch, ids, nowMs)
            == Progress(s'.db, [], PutOnWire(s, actions), Alive(s'))
  {
    if order == [] {
      actions, s' := NothingRecovered(s, first, ids, nowMs, heard);
    } else {
      assert Recovered(s.db.rows, order) == [BatchOf(s.db.rows, order[0])];
      actions, s' := RecoveredAttempt(s, order, first, ids, nowMs, heard);
    }
  }

  /** The attempt if nothing was in flight. */
  lemma NothingRecovered(s: System, first: Option<StatusCode>, ids: seq<Ulid>, nowMs: int, heard: seq<Heard>)
    returns (actions: seq<Action>, s': System)
    requires Inv(s) && Alive(s) && s.acks == [] && AttemptPossible(s, [], first, ids, nowMs, heard)
    ensures Runs(s, actions, s')
    ensures var inbound := AttemptInbound(s.db, [], first, s.cfg.maxBatch, ids, nowMs, heard);
            AfterPolls(Progress(s.db, inbound, [], true), s.cfg.datasource, s.cfg.maxBatch, ids, nowMs)
            == Progress(s'.db, [], PutOnWire(s, actions), Alive(s'))
  {
    var inbound := Inbound(s.db, s.cfg.maxBatch, ids, nowMs, heard);
    assert [] + inbound == inbound;
    actions, s' := PollsAreRuns(s, ids, nowMs, heard, []);
    assert [] + PutOnWire(s, actions) == PutOnWire(s, actions);
  }

  /** The attempt once the batch in flight is read back. */
  lemma RecoveredAttempt(s: System, order: seq<Ulid>, first: Option<StatusCode>, ids: seq<Ulid>, nowMs: int,
                         heard: seq<Heard>)
    returns (actions: seq<Action>, s': System)
    requires Inv(s) && s.phase.Ready? && |s.phase.todo| == 1 && s.acks == [] && order == [s.phase.todo[0].batchId]
    requires AttemptPossible(s, order, first, ids, nowMs, heard)
    ensures Runs(s, actions, s')
    ensures var inbound := AttemptInbound(s.db, order, first, s.cfg.maxBatch, ids, nowMs, heard);
            var p := AfterResend(Progress(s.db, inbound, [], true), s.cfg.datasource, s.phase.todo);
            AfterPolls(p, s.cfg.datasource, s.cfg.maxBatch, ids, nowMs)
            == Progress(s'.db, [], PutOnWire(s, actions), Alive(s'))
  {
    var batch := s.phase.todo[0];
    assert s.phase.todo == [batch];
    var after := RecoveredDb(s.db, order, first);
    var later := if first == None then [] else Inbound(after, s.cfg.maxBatch, ids, nowMs, heard);
    ResendMatches(s.db, s.cfg.datasource, batch, first, later);
    var round, s1 := ResendIsRun(s, first);
    if first == None {
      return round, s1;
    }
    var rest;
    rest, s' := PollsAreRuns(s1, ids, nowMs, heard, PutOnWire(s, round));
    RunsAppend(s, round, s1, rest, s');
    PutAppend(s, round, s1, rest);
    actions := round + rest;
  }
}
