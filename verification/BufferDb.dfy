/**
 `BufferDb` of src/buffer.rs. Every method is one SQL transaction executed statement by statement;
 its contract ties the new tables to the transaction function of `SampleTable`, whose laws are
 proved in `TableLaws`.
 */
module Buffer {
  import opened Common
  import opened SampleTable
  import opened TableLaws

  datatype BufferError = PrimaryKeyViolation

  /** Batch ids in the order of `ORDER BY sent_at_ms`; ties come in any order. */
  ghost predicate RecoveryOrder(order: seq<Ulid>, inFlight: map<Ulid, int>) {
    && (forall b :: b in order <==> b in inFlight)
    && (forall i, j :: 0 <= i < j < |order| ==> order[i] != order[j])
    && (forall i, j :: 0 <= i < j < |order| ==> inFlight[order[i]] <= inFlight[order[j]])
  }

  function Recovered(rows: seq<Row>, order: seq<Ulid>): seq<ClaimedBatch> {
    seq(|order|, i requires 0 <= i < |order| => BatchOf(rows, order[i]))
  }

  lemma IdListIds(rows: seq<Row>)
    ensures var ids := IdList(rows); (set k | 0 <= k < |ids| :: ids[k]) == Ids(rows)
  {
    var ids := IdList(rows);
    forall r | r in rows ensures r.id in set k | 0 <= k < |ids| :: ids[k] {
      var k :| 0 <= k < |rows| && rows[k] == r;
      assert ids[k] == r.id;
    }
  }

  /** A batch read back is the rows tagged with it: their samples by id, and the origin they share. */
  lemma RecoveredHolds(db: Db, order: seq<Ulid>, i: nat)
    requires Valid(db) && i < |order| == |Recovered(db.rows, order)|
    ensures var (own, batch) := (Tagged(db.rows, Some(order[i])), Recovered(db.rows, order)[i]);
            && batch.batchId == order[i] && |batch.samples| == |own| && Sorted(own)
            && (forall k :: 0 <= k < |own| ==> batch.samples[k] == own[k].sample && batch.origin == own[k].origin)
  {
    var own := Tagged(db.rows, Some(order[i]));
    TaggedSorted(db.rows);
    forall k | 0 <= k < |own| ensures own[k].origin == own[0].origin {
      assert own[k] in own && own[0] in own;
    }
  }

  /** A claimed batch carries the claimed rows' samples in id order and their common origin. */
  lemma ClaimedBatchIs(db: Db, maxSize: nat, b: Ulid, nowMs: int)
    requires Valid(db) && NextClaim(db.rows, maxSize) != [] && b !in db.inFlight
    ensures Valid(ClaimDb(db, maxSize, b, nowMs))
    ensures BatchOf(ClaimDb(db, maxSize, b, nowMs).rows, b)
         == ClaimedBatch(b, Samples(NextClaim(db.rows, maxSize)), Pending(db.rows)[0].origin)
  {
    var claim := NextClaim(db.rows, maxSize);
    NextClaimFacts(db.rows, maxSize);
    ClaimKeepsValid(db, maxSize, b, nowMs);
    TaggedBatchIs(ClaimDb(db, maxSize, b, nowMs).rows, b, claim);
  }

  lemma TaggedBatchIs(rows: seq<Row>, b: Ulid, claim: seq<Row>)
    requires claim != [] && Tagged(rows, Some(b)) == WithBatch(claim, Some(b))
    ensures BatchOf(rows, b) == ClaimedBatch(b, Samples(claim), claim[0].origin)
  {
    assert Samples(WithBatch(claim, Some(b))) == Samples(claim);
  }

  class BufferDb {
    // The two tables and the AUTOINCREMENT counter live on disk.
    var rows: seq<Row>
    var nextId: nat
    var inFlight: map<Ulid, int>
    // In memory only: reset by every open.
    const maxRows: nat
    var droppedTotal: nat
    var lastDropLogMs: int

    function Tables(): Db reads this { Db(rows, nextId, inFlight) }

    ghost predicate Consistent() reads this { Valid(Tables()) }

    /** Opens the file whose tables are `onDisk`; a new file holds `EMPTY_DB`. */
    constructor Open(onDisk: Db, maxRows: nat)
      ensures Tables() == onDisk && this.maxRows == maxRows
      ensures droppedTotal == 0 && lastDropLogMs == 0
    {
      this.rows, this.nextId, this.inFlight := onDisk.rows, onDisk.nextId, onDisk.inFlight;
      this.maxRows := maxRows;
      droppedTotal, lastDropLogMs := 0, 0;
    }

    method EnqueueWithOrigin(origin: Origin, samples: seq<Sample>, nowMs: int)
      requires Consistent()
      modifies this
      ensures Consistent()
      ensures Tables() == EnqueueDb(old(Tables()), maxRows, origin, samples)
      ensures droppedTotal - old(droppedTotal) == |old(rows)| + |samples| - |rows|
      ensures samples == [] || |old(rows)| + |samples| <= maxRows ==>
                droppedTotal == old(droppedTotal) && rows[..|old(rows)|] == old(rows)
      ensures samples != [] && |old(rows)| + |samples| > maxRows ==>
                var over := |old(rows)| + |samples| - maxRows;
                droppedTotal == old(droppedTotal) + Min(|Pending(old(rows))|, Max(over, Max(maxRows / 100, 1)))
      ensures lastDropLogMs == if droppedTotal > old(droppedTotal) && nowMs - old(lastDropLogMs) >= 30000
                               then nowMs else old(lastDropLogMs)
    {
      if samples == [] {
        return;
      }
      ghost var after := EnqueueDb(Tables(), maxRows, origin, samples);
      assert Valid(after) by {
        EnqueueEffect(Tables(), maxRows, origin, samples);
      }
      EnqueueCounts(Tables(), maxRows, origin, samples);
      DropOldest(|samples|, nowMs);
      InsertAll(origin, samples);
      assert Tables() == after;
    }

    /** The eviction statement of the enqueue transaction, with the throttled log clock. */
    method DropOldest(incoming: nat, nowMs: int)
      modifies this`rows, this`droppedTotal, this`lastDropLogMs
      ensures rows == DeleteIds(old(rows), Ids(Victims(old(rows), incoming, maxRows)))
      ensures |old(rows)| + incoming <= maxRows ==> rows == old(rows) && droppedTotal == old(droppedTotal)
      ensures |old(rows)| + incoming > maxRows ==>
                var over := |old(rows)| + incoming - maxRows;
                droppedTotal == old(droppedTotal) + Min(|Pending(old(rows))|, Max(over, Max(maxRows / 100, 1)))
      ensures lastDropLogMs == if droppedTotal > old(droppedTotal) && nowMs - old(lastDropLogMs) >= 30000
                               then nowMs else old(lastDropLogMs)
    {
      var projected := |rows| + incoming;
      if projected > maxRows {
        var overshoot := projected - maxRows;
        var chunk := Max(maxRows / 100, 1);
        var toDrop := Max(overshoot, chunk);
        var victims := Limit(Pending(rows), toDrop);
        rows := DeleteIds(rows, Ids(victims));
        if |victims| > 0 {
          droppedTotal := droppedTotal + |victims|;
          if nowMs - lastDropLogMs >= 30000 {
            lastDropLogMs := nowMs;
          }
        }
      } else {
        SelectAll(rows, (x: Row) => x.id !in Ids([]));
      }
    }

    /** The INSERT loop of the enqueue transaction. */
    method InsertAll(origin: Origin, samples: seq<Sample>)
      modifies this`rows, this`nextId
      ensures rows == old(rows) + NewRows(old(nextId), origin, samples)
      ensures nextId == old(nextId) + |samples|
    {
      var i := 0;
      while i < |samples|
        invariant 0 <= i <= |samples|
        invariant nextId == old(nextId) + i
        invariant rows == old(rows) + NewRows(old(nextId), origin, samples)[..i]
      {
        rows := rows + [Row(nextId, samples[i], None, origin)];
        nextId := nextId + 1;
        i := i + 1;
      }
    }

    /** UPDATE pending_samples SET batch_id = ?1 WHERE id = ?2, once per claimed id. */
    method TagAll(ids: seq<nat>, batchId: Ulid)
      modifies this`rows
      ensures rows == SetBatch(old(rows), set k | 0 <= k < |ids| :: ids[k], Some(batchId))
    {
      var i := 0;
      while i < |ids|
        invariant 0 <= i <= |ids|
        invariant rows == SetBatch(old(rows), set k | 0 <= k < i :: ids[k], Some(batchId))
      {
        rows := SetBatch(rows, {ids[i]}, Some(batchId));
        i := i + 1;
      }
    }

    /** `batchId` is the ULID drawn by the call, `nowMs` the clock it reads. */
    method ClaimBatch(maxSize: nat, batchId: Ulid, nowMs: int)
      returns (r: Result<Option<ClaimedBatch>, BufferError>)
      requires Consistent()
      modifies this`rows, this`inFlight
      ensures Consistent()
      ensures r == Success(None) <==> maxSize == 0 || forall row :: row in old(rows) ==> row.batch.Some?
      ensures r.Failure? <==> r != Success(None) && batchId in old(inFlight)
      ensures !(r.Success? && r.value.Some?) ==> Tables() == old(Tables())
      ensures r.Success? && r.value.Some? ==>
                && Tables() == ClaimDb(old(Tables()), maxSize, batchId, nowMs)
                && r.value.value == BatchOf(rows, batchId) && r.value.value.batchId == batchId
                && inFlight == old(inFlight)[batchId := nowMs] && nextId == old(nextId)
                && r.value.value.samples == Samples(NextClaim(old(rows), maxSize))
                && r.value.value.origin == Pending(old(rows))[0].origin
    {
      var pending := Pending(rows);
      if pending == [] {
        assert forall row :: row in rows ==> row.batch.Some?;
        return Success(None);
      }
      assert pending[0] in rows && pending[0] in OfOrigin(pending, pending[0].origin);
      var origin := pending[0].origin;
      var ids := IdList(Limit(OfOrigin(pending, origin), maxSize));
      if ids == [] {
        return Success(None);
      }
      ghost var claim := NextClaim(rows, maxSize);
      if batchId in inFlight {
        // The INSERT below would violate the primary key and roll the transaction back.
        return Failure(PrimaryKeyViolation);
      }
      ghost var after := ClaimDb(Tables(), maxSize, batchId, nowMs);
      assert Valid(after) && BatchOf(after.rows, batchId) == ClaimedBatch(batchId, Samples(claim), origin) by {
        ClaimedBatchIs(Tables(), maxSize, batchId, nowMs);
      }
      TagAll(ids, batchId);
      assert (set k | 0 <= k < |ids| :: ids[k]) == Ids(claim) by {
        IdListIds(claim);
      }
      inFlight := inFlight[batchId := nowMs];
      assert Tables() == after;
      return Success(Some(ClaimedBatch(batchId, Samples(Tagged(rows, Some(batchId))), origin)));
    }

    method AckOk(batchId: Ulid)
      requires Consistent()
      modifies this`rows, this`inFlight
      ensures Consistent() && Tables() == AckOkDb(old(Tables()), batchId)
      ensures inFlight == old(inFlight) - {batchId}
      ensures forall row :: row in rows <==> row in old(rows) && row.batch != Some(batchId)
    {
      AckOkEffect(Tables(), batchId);
      rows := DeleteBatch(rows, batchId);
      inFlight := inFlight - {batchId};
    }

    method AckRetry(batchId: Ulid)
      requires Consistent()
      modifies this`rows, this`inFlight
      ensures Consistent() && Tables() == AckRetryDb(old(Tables()), batchId)
      ensures inFlight == old(inFlight) - {batchId} && |rows| == |old(rows)|
      ensures forall i :: 0 <= i < |rows| ==>
                rows[i] == if old(rows)[i].batch == Some(batchId) then old(rows)[i].(batch := None) else old(rows)[i]
    {
      AckRetryEffect(Tables(), batchId);
      rows := ClearBatch(rows, batchId);
      inFlight := inFlight - {batchId};
    }

    /** SELECT batch_id FROM in_flight_batches ORDER BY sent_at_ms */
    method BatchIdsBySendTime() returns (order: seq<Ulid>)
      ensures RecoveryOrder(order, inFlight)
    {
      order := [];
      var left := inFlight.Keys;
      while left != {}
        invariant left <= inFlight.Keys
        invariant forall b :: b in order <==> b in inFlight && b !in left
        invariant forall i, j :: 0 <= i < j < |order| ==> order[i] != order[j]
        invariant forall i, j :: 0 <= i < j < |order| ==> inFlight[order[i]] <= inFlight[order[j]]
        invariant forall i, b :: 0 <= i < |order| && b in left ==> inFlight[order[i]] <= inFlight[b]
        decreases |left|
      {
        var b := Earliest(left);
        order := order + [b];
        left := left - {b};
      }
    }

    method Earliest(left: set<Ulid>) returns (b: Ulid)
      requires left != {} && left <= inFlight.Keys
      ensures b in left && forall c :: c in left ==> inFlight[b] <= inFlight[c]
    {
      b :| b in left;
      var rest := left - {b};
      while rest != {}
        invariant rest <= left && b in left && b !in rest
        invariant forall c :: c in left && c !in rest ==> inFlight[b] <= inFlight[c]
        decreases |rest|
      {
        var c :| c in rest;
        rest := rest - {c};
        if inFlight[c] < inFlight[b] {
          b := c;
        }
      }
    }

    /** Returns the in-flight batches by send time; `order` is the order of the query. */
    method RecoverInFlight() returns (order: seq<Ulid>, batches: seq<ClaimedBatch>)
      requires Consistent()
      ensures RecoveryOrder(order, inFlight)
      ensures forall b :: b in order <==> b in inFlight
      ensures forall i, j :: 0 <= i < j < |order| ==> order[i] != order[j] && inFlight[order[i]] <= inFlight[order[j]]
      ensures batches == Recovered(rows, order)
    {
      order := BatchIdsBySendTime();
      batches := [];
      var i := 0;
      while i < |order|
        invariant 0 <= i <= |order|
        invariant batches == Recovered(rows, order)[..i]
      {
        var own := Tagged(rows, Some(order[i]));
        var origin := if own == [] then None else own[0].origin;
        batches := batches + [ClaimedBatch(order[i], Samples(own), origin)];
        i := i + 1;
      }
    }

    method Counts() returns (pending: nat, claimed: nat)
      ensures pending == |Pending(rows)| && claimed == |Claimed(rows)| && pending + claimed == |rows|
    {
      CountRows(rows);
      pending := |Tagged(rows, None)|;
      claimed := |Claimed(rows)|;
    }
  }
}
