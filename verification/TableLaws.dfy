/** What each transaction of src/buffer.rs does to the two tables, stated without its SQL. */
module TableLaws {
  import opened Common
  import opened SampleTable

  // ---------------------------------------------------------------- enqueue

  lemma NewRowsSorted(nextId: nat, origin: Origin, samples: seq<Sample>)
    ensures Sorted(NewRows(nextId, origin, samples))
    ensures forall r :: r in NewRows(nextId, origin, samples) ==>
                          nextId <= r.id < nextId + |samples| && r.batch == None && r.origin == origin
  {
  }

  lemma PrefixIds(rows: seq<Row>, k: nat)
    requires Sorted(rows) && k <= |rows|
    ensures forall r :: r in rows ==> (r.id in Ids(rows[..k]) <==> r in rows[..k])
    ensures forall r :: r in rows ==> (r in rows[..k] <==> r !in rows[k..])
    ensures forall v, p :: v in rows[..k] && p in rows[k..] ==> v.id < p.id
    ensures Sorted(rows[k..]) && Sorted(rows[..k])
  {
    forall v, p | v in rows[..k] && p in rows[k..] ensures v.id < p.id {
      var i :| 0 <= i < k && rows[i] == v;
      var j :| k <= j < |rows| && rows[j] == p;
    }
    assert rows == rows[..k] + rows[k..];
  }

  /** Rows are picked by their ids. */
  lemma IdsPick(rows: seq<Row>, some: seq<Row>)
    requires Sorted(rows) && forall r :: r in some ==> r in rows
    ensures forall r :: r in rows ==> (r.id in Ids(some) <==> r in some)
  {
    forall r | r in rows ensures r.id in Ids(some) <==> r in some {
      if r.id in Ids(some) {
        var v :| v in some && v.id == r.id;
        IdUnique(rows, r, v);
      }
    }
  }

  /** Eviction: exactly the smallest-id pending rows go, and every claimed row stays. */
  lemma EvictRows(rows: seq<Row>, k: nat)
    requires Sorted(rows) && k <= |Pending(rows)|
    ensures var kept := DeleteIds(rows, Ids(Pending(rows)[..k]));
            && Sorted(kept)
            && Pending(kept) == Pending(rows)[k..]
            && Claimed(kept) == Claimed(rows)
            && (forall b :: Tagged(kept, Some(b)) == Tagged(rows, Some(b)))
  {
    var pending := Pending(rows);
    var kept := DeleteIds(rows, Ids(pending[..k]));
    TaggedSorted(rows);
    DeleteIdsSorted(rows, Ids(pending[..k]));
    TaggedSorted(kept);
    PrefixIds(pending, k);
    forall r | r in rows ensures r in kept <==> r !in pending[..k] {
      if r.id in Ids(pending[..k]) {
        var v :| v in pending[..k] && v.id == r.id;
        IdUnique(rows, r, v);
      }
    }
    SortedExt(Pending(kept), pending[k..]);
    SortedExt(Claimed(kept), Claimed(rows));
    forall b ensures Tagged(kept, Some(b)) == Tagged(rows, Some(b)) {
      SameTagged(kept, rows, Some(b));
    }
  }

  lemma AppendTagged(rows: seq<Row>, added: seq<Row>, t: Option<Ulid>)
    requires forall r :: r in added ==> r.batch == None
    ensures Tagged(rows + added, t) == Tagged(rows, t) + if t == None then added else []
  {
    SelectAppend(rows, added, HasBatch(t));
    if t == None {
      SelectAll(added, HasBatch(t));
    } else {
      SelectNone(added, HasBatch(t));
    }
  }

  lemma AppendNew(rows: seq<Row>, nextId: nat, origin: Origin, samples: seq<Sample>)
    requires Sorted(rows) && forall r :: r in rows ==> r.id < nextId
    ensures var all := rows + NewRows(nextId, origin, samples);
            && Sorted(all)
            && Pending(all) == Pending(rows) + NewRows(nextId, origin, samples)
            && Claimed(all) == Claimed(rows)
            && (forall b :: Tagged(all, Some(b)) == Tagged(rows, Some(b)))
  {
    var added := NewRows(nextId, origin, samples);
    NewRowsSorted(nextId, origin, samples);
    AppendTagged(rows, added, None);
    SelectAppend(rows, added, (x: Row) => x.batch.Some?);
    SelectNone(added, (x: Row) => x.batch.Some?);
    forall b ensures Tagged(rows + added, Some(b)) == Tagged(rows, Some(b)) {
      AppendTagged(rows, added, Some(b));
    }
    AppendSorted(rows, added);
  }

  lemma AppendSorted(a: seq<Row>, b: seq<Row>)
    requires Sorted(a) && Sorted(b)
    requires forall x, y :: x in a && y in b ==> x.id < y.id
    ensures Sorted(a + b)
  {
  }

  lemma EnqueueEffect(db: Db, maxRows: nat, origin: Origin, samples: seq<Sample>)
    requires Valid(db) && samples != []
    ensures var db' := EnqueueDb(db, maxRows, origin, samples);
            var evicted := |Victims(db.rows, |samples|, maxRows)|;
            && Valid(db')
            && Pending(db'.rows) == Pending(db.rows)[evicted..] + NewRows(db.nextId, origin, samples)
            && Claimed(db'.rows) == Claimed(db.rows)
            && (forall b :: Tagged(db'.rows, Some(b)) == Tagged(db.rows, Some(b)))
  {
    var k := |Victims(db.rows, |samples|, maxRows)|;
    EvictRows(db.rows, k);
    var kept := DeleteIds(db.rows, Ids(Pending(db.rows)[..k]));
    AppendNew(kept, db.nextId, origin, samples);
    NewRowsSorted(db.nextId, origin, samples);
  }

  lemma CountRows(rows: seq<Row>)
    ensures |rows| == |Pending(rows)| + |Claimed(rows)|
  {
    SelectSplits(rows, HasBatch(None), (x: Row) => x.batch.Some?);
  }

  lemma VictimsFacts(rows: seq<Row>, n: nat, maxRows: nat)
    requires Sorted(rows)
    ensures var victims := Victims(rows, n, maxRows);
            && |victims| == Min(|Pending(rows)|, EvictionQuota(|rows|, n, maxRows))
            && Sorted(victims)
            && (forall v :: v in victims ==> v in rows && v.batch == None)
            && (forall v, p :: v in victims && p in rows && p.batch == None && p !in victims ==> v.id < p.id)
            && (forall r :: r in rows ==> (r.id in Ids(victims) <==> r in victims))
  {
    var victims := Victims(rows, n, maxRows);
    TaggedSorted(rows);
    PrefixIds(Pending(rows), |victims|);
    IdsPick(rows, victims);
  }

  lemma EnqueueSize(db: Db, maxRows: nat, origin: Origin, samples: seq<Sample>)
    requires Valid(db) && samples != []
    ensures var db' := EnqueueDb(db, maxRows, origin, samples);
            && |db'.rows| == |db.rows| - |Victims(db.rows, |samples|, maxRows)| + |samples|
            && |db'.rows| <= Max(maxRows, |Claimed(db.rows)| + |samples|)
  {
    EnqueueEffect(db, maxRows, origin, samples);
    CountRows(db.rows);
    CountRows(EnqueueDb(db, maxRows, origin, samples).rows);
  }

  /**
   The high-water mark, exactly: at or below it an enqueue evicts nothing; above it, the smallest-id pending
   rows and nothing else, as many as the overshoot or one percent of the mark asks for. Afterwards the table
   holds at most max(maxRows, claimed + added) rows.
   */
  lemma EvictionExact(db: Db, maxRows: nat, origin: Origin, samples: seq<Sample>)
    requires Valid(db) && samples != []
    ensures var db' := EnqueueDb(db, maxRows, origin, samples);
            var victims := Victims(db.rows, |samples|, maxRows);
            var added := NewRows(db.nextId, origin, samples);
            && (|db.rows| + |samples| <= maxRows ==> victims == [])
            && (|db.rows| + |samples| > maxRows ==>
                  var over := |db.rows| + |samples| - maxRows;
                  |victims| == Min(|Pending(db.rows)|, Max(over, Max(maxRows / 100, 1))))
            && (forall v :: v in victims ==> v in db.rows && v.batch == None)
            && (forall v, p :: v in victims && p in db.rows && p.batch == None && p !in victims ==> v.id < p.id)
            && (forall r :: r in db'.rows <==> (r in db.rows && r !in victims) || r in added)
            && |db'.rows| == |db.rows| - |victims| + |samples|
            && |db'.rows| <= Max(maxRows, |Claimed(db.rows)| + |samples|)
  {
    VictimsFacts(db.rows, |samples|, maxRows);
    EnqueueSize(db, maxRows, origin, samples);
  }

  /** How many rows an enqueue takes off: none up to the mark, then the overshoot or one percent of the mark. */
  lemma EnqueueCounts(db: Db, maxRows: nat, origin: Origin, samples: seq<Sample>)
    requires Valid(db)
    ensures var after := EnqueueDb(db, maxRows, origin, samples).rows;
            var filled := |db.rows| + |samples|;
            && (samples == [] || filled <= maxRows ==> |after| == filled && after[..|db.rows|] == db.rows)
            && (samples != [] && filled > maxRows ==>
                  |after| == filled - Min(|Pending(db.rows)|, Max(filled - maxRows, Max(maxRows / 100, 1))))
  {
    if samples != [] {
      EvictionExact(db, maxRows, origin, samples);
      if |db.rows| + |samples| <= maxRows {
        SelectAll(db.rows, (x: Row) => x.id !in Ids([]));
      }
    }
  }

  /** Which rows it takes off: pending ones, each older than every pending row that stays. */
  lemma EnqueueTakes(db: Db, maxRows: nat, origin: Origin, samples: seq<Sample>, gone: Row)
    requires Valid(db) && gone in db.rows && gone !in EnqueueDb(db, maxRows, origin, samples).rows
    ensures gone.batch == None
    ensures forall r :: r in db.rows && r.batch == None && r in EnqueueDb(db, maxRows, origin, samples).rows
                        ==> gone.id < r.id
  {
    EvictionExact(db, maxRows, origin, samples);
    NewRowsSorted(db.nextId, origin, samples);
  }

  /** What it adds: one pending row for each sample, in order, under the next ids. */
  lemma EnqueueAdds(db: Db, maxRows: nat, origin: Origin, samples: seq<Sample>)
    ensures var db' := EnqueueDb(db, maxRows, origin, samples);
            && db'.nextId == db.nextId + |samples| && db'.inFlight == db.inFlight && |db'.rows| >= |samples|
            && (forall i :: 0 <= i < |samples| ==>
                  db'.rows[|db'.rows| - |samples| + i] == Row(db.nextId + i, samples[i], None, origin))
  {
  }

  // ------------------------------------------------------------------ claim

  lemma NextClaimFacts(rows: seq<Row>, maxSize: nat)
    requires Sorted(rows) && Pending(rows) != [] && maxSize > 0
    ensures var claim := NextClaim(rows, maxSize);
            var oldest := Pending(rows)[0];
            && 0 < |claim| <= maxSize
            && Sorted(claim)
            && claim[0] == oldest
            && (forall r :: r in claim ==> r in rows && r.batch == None && r.origin == oldest.origin)
            && (forall r, p :: r in claim && p in rows && p.batch == None && p.origin == oldest.origin && p !in claim
                               ==> r.id < p.id)
            && (forall p :: p in rows && p.batch == None ==> oldest.id <= p.id)
            && (forall r :: r in rows ==> (r.id in Ids(claim) <==> r in claim))
            && |claim| == Min(|OfOrigin(Pending(rows), oldest.origin)|, maxSize)
  {
    var pending := Pending(rows);
    TaggedSorted(rows);
    OfOriginSorted(pending, pending[0].origin);
    FirstOfSame(pending);
    PrefixIds(OfOrigin(pending, pending[0].origin), |NextClaim(rows, maxSize)|);
    IdsPick(rows, NextClaim(rows, maxSize));
  }

  lemma FirstOfSame(pending: seq<Row>)
    requires Sorted(pending) && pending != []
    ensures var same := OfOrigin(pending, pending[0].origin); same != [] && same[0] == pending[0]
    ensures forall p :: p in pending ==> pending[0].id <= p.id
  {
    var same := OfOrigin(pending, pending[0].origin);
    OfOriginSorted(pending, pending[0].origin);
    assert pending[0] in same;
  }

  /** The rows of a claim after they have been tagged with batch id `b`. */
  function WithBatch(rows: seq<Row>, t: Option<Ulid>): (r: seq<Row>)
    ensures |r| == |rows| && forall i :: 0 <= i < |rows| ==> r[i] == rows[i].(batch := t)
  {
    seq(|rows|, i requires 0 <= i < |rows| => rows[i].(batch := t))
  }

  lemma UpdateMembership(rows: seq<Row>, ids: set<nat>, t: Option<Ulid>)
    ensures forall x :: x in SetBatch(rows, ids, t) <==>
                          (x in rows && x.id !in ids) || (x.id in ids && exists r :: r in rows && x == r.(batch := t))
  {
    var out := SetBatch(rows, ids, t);
    forall x | x in rows && x.id !in ids ensures x in out {
      var i :| 0 <= i < |rows| && rows[i] == x;
      assert out[i] == x;
    }
    forall r | r in rows && r.id in ids ensures r.(batch := t) in out {
      var i :| 0 <= i < |rows| && rows[i] == r;
      assert out[i] == r.(batch := t);
    }
  }

  lemma SetBatchSorted(rows: seq<Row>, ids: set<nat>, t: Option<Ulid>)
    requires Sorted(rows)
    ensures Sorted(SetBatch(rows, ids, t))
  {
  }

  /** Tagging exactly the rows of `claim`, all pending, by their ids. */
  lemma TaggedMembership(rows: seq<Row>, claim: seq<Row>, ids: set<nat>, b: Ulid)
    requires forall r :: r in rows ==> (r.id in ids <==> r in claim)
    requires forall r :: r in claim ==> r in rows && r.batch == None
    ensures forall x :: x in SetBatch(rows, ids, Some(b)) <==>
                          (x in rows && x !in claim) || (x.batch == Some(b) && x.(batch := None) in claim)
  {
    var rows' := SetBatch(rows, ids, Some(b));
    UpdateMembership(rows, ids, Some(b));
    forall x ensures x in rows' <==>
                       (x in rows && x !in claim) || (x.batch == Some(b) && x.(batch := None) in claim) {
      if x.batch == Some(b) && x.(batch := None) in claim {
        assert x == x.(batch := None).(batch := Some(b));
      }
      if x in rows' && x.id in ids {
        var r :| r in rows && x == r.(batch := Some(b));
        assert r in claim && x.(batch := None) == r;
      }
    }
  }

  lemma ClaimMembership(rows: seq<Row>, maxSize: nat, b: Ulid)
    requires Sorted(rows) && Pending(rows) != [] && maxSize > 0
    ensures var claim := NextClaim(rows, maxSize);
            var rows' := SetBatch(rows, Ids(claim), Some(b));
            && Sorted(rows')
            && (forall x :: x in rows' <==>
                  (x in rows && x !in claim) || (x.batch == Some(b) && x.(batch := None) in claim))
  {
    var claim := NextClaim(rows, maxSize);
    NextClaimFacts(rows, maxSize);
    SetBatchSorted(rows, Ids(claim), Some(b));
    TaggedMembership(rows, claim, Ids(claim), b);
  }

  lemma TaggedClaim(claim: seq<Row>, rows: seq<Row>, b: Ulid)
    requires Sorted(claim) && Sorted(rows)
    requires forall x :: x in rows && x.batch == Some(b) <==> x.batch == Some(b) && x.(batch := None) in claim
    requires forall r :: r in claim ==> r.batch == None
    ensures Tagged(rows, Some(b)) == WithBatch(claim, Some(b))
  {
    var tagged := WithBatch(claim, Some(b));
    forall x: Row | x.batch == Some(b) && x.(batch := None) in claim ensures x in tagged {
      var i :| 0 <= i < |claim| && claim[i] == x.(batch := None);
      assert tagged[i] == x;
    }
    TaggedSorted(rows);
    SortedExt(Tagged(rows, Some(b)), tagged);
  }

  lemma ClaimTagged(rows: seq<Row>, maxSize: nat, b: Ulid)
    requires Sorted(rows) && Pending(rows) != [] && maxSize > 0 && forall r :: r in rows ==> r.batch != Some(b)
    ensures var rows' := SetBatch(rows, Ids(NextClaim(rows, maxSize)), Some(b));
            && (forall c :: c != b ==> Tagged(rows', Some(c)) == Tagged(rows, Some(c)))
            && Tagged(rows', Some(b)) == WithBatch(NextClaim(rows, maxSize), Some(b))
  {
    var claim := NextClaim(rows, maxSize);
    var rows' := SetBatch(rows, Ids(claim), Some(b));
    NextClaimFacts(rows, maxSize);
    ClaimMembership(rows, maxSize, b);
    forall c | c != b ensures Tagged(rows', Some(c)) == Tagged(rows, Some(c)) {
      SameTagged(rows', rows, Some(c));
    }
    TaggedClaim(claim, rows', b);
  }

  /** `rows'` is `rows` with the rows of `claim`, pending and all of origin `o`, moved to batch `b`. */
  ghost predicate Retagged(rows: seq<Row>, rows': seq<Row>, claim: seq<Row>, b: Ulid, o: Origin) {
    && Sorted(rows')
    && (forall r :: r in claim ==> r in rows && r.batch == None && r.origin == o)
    && (forall x :: x in rows' ==> (x in rows && x !in claim) || (x.batch == Some(b) && x.(batch := None) in claim))
  }

  lemma ClaimRetags(rows: seq<Row>, maxSize: nat, b: Ulid)
    requires Sorted(rows) && Pending(rows) != [] && maxSize > 0
    ensures NextClaim(rows, maxSize) != []
    ensures Retagged(rows, SetBatch(rows, Ids(NextClaim(rows, maxSize)), Some(b)), NextClaim(rows, maxSize), b,
                     Pending(rows)[0].origin)
  {
    NextClaimFacts(rows, maxSize);
    ClaimMembership(rows, maxSize, b);
  }

  /** Tagging pending rows of one origin with a new batch id keeps the two tables consistent. */
  lemma TaggingKeepsValid(db: Db, db': Db, claim: seq<Row>, b: Ulid, o: Origin)
    requires Valid(db) && Retagged(db.rows, db'.rows, claim, b, o)
    requires b !in db.inFlight && db'.inFlight.Keys == db.inFlight.Keys + {b} && db'.nextId == db.nextId
    requires forall c :: c != b ==> Tagged(db'.rows, Some(c)) == Tagged(db.rows, Some(c))
    requires Tagged(db'.rows, Some(b)) != []
    ensures Valid(db')
  {
    forall x | x in db'.rows ensures 1 <= x.id < db'.nextId && (x.batch.Some? ==> x.batch.value in db'.inFlight) {
      if x !in db.rows {
        assert x.(batch := None) in db.rows;
      }
    }
    forall x, y | x in db'.rows && y in db'.rows && x.batch.Some? && x.batch == y.batch ensures x.origin == y.origin {
      assert x.batch == Some(b) ==> x.(batch := None) in claim && y.(batch := None) in claim;
    }
  }

  lemma ClaimKeepsValid(db: Db, maxSize: nat, b: Ulid, nowMs: int)
    requires Valid(db) && Pending(db.rows) != [] && maxSize > 0 && b !in db.inFlight
    ensures var db' := ClaimDb(db, maxSize, b, nowMs);
            && Valid(db')
            && (forall c :: c != b ==> Tagged(db'.rows, Some(c)) == Tagged(db.rows, Some(c)))
            && Tagged(db'.rows, Some(b)) == WithBatch(NextClaim(db.rows, maxSize), Some(b))
  {
    ClaimTagged(db.rows, maxSize, b);
    ClaimRetags(db.rows, maxSize, b);
    TaggingKeepsValid(db, ClaimDb(db, maxSize, b, nowMs), NextClaim(db.rows, maxSize), b, Pending(db.rows)[0].origin);
  }

  lemma ClaimPending(db: Db, maxSize: nat, b: Ulid, nowMs: int)
    requires Valid(db) && Pending(db.rows) != [] && maxSize > 0
    ensures Pending(ClaimDb(db, maxSize, b, nowMs).rows)
         == DeleteIds(Pending(db.rows), Ids(NextClaim(db.rows, maxSize)))
  {
    var db' := ClaimDb(db, maxSize, b, nowMs);
    var claim := NextClaim(db.rows, maxSize);
    NextClaimFacts(db.rows, maxSize);
    ClaimMembership(db.rows, maxSize, b);
    TaggedSorted(db.rows);
    TaggedSorted(db'.rows);
    DeleteIdsSorted(Pending(db.rows), Ids(claim));
    SortedExt(Pending(db'.rows), DeleteIds(Pending(db.rows), Ids(claim)));
  }

  // ------------------------------------------------------------------- acks

  lemma AckOkEffect(db: Db, b: Ulid)
    requires Valid(db)
    ensures var db' := AckOkDb(db, b);
            && Valid(db')
            && Tagged(db'.rows, Some(b)) == []
            && (forall t :: t != Some(b) ==> Tagged(db'.rows, t) == Tagged(db.rows, t))
            && |db'.rows| <= |db.rows|
  {
    var db' := AckOkDb(db, b);
    DeleteBatchSorted(db.rows, b);
    SelectNone(db'.rows, HasBatch(Some(b)));
    forall t | t != Some(b) ensures Tagged(db'.rows, t) == Tagged(db.rows, t) {
      SameTagged(db'.rows, db.rows, t);
    }
  }

  lemma ClearMembership(rows: seq<Row>, b: Ulid)
    ensures forall x :: x in ClearBatch(rows, b) <==>
                          (x in rows && x.batch != Some(b)) || (x.batch == None && x.(batch := Some(b)) in rows)
  {
    var out := ClearBatch(rows, b);
    forall x | x in rows && x.batch != Some(b) ensures x in out {
      var i :| 0 <= i < |rows| && rows[i] == x;
      assert out[i] == x;
    }
    forall x: Row | x.batch == None && x.(batch := Some(b)) in rows ensures x in out {
      var i :| 0 <= i < |rows| && rows[i] == x.(batch := Some(b));
      assert out[i] == x;
    }
    forall x | x in out ensures (x in rows && x.batch != Some(b)) || (x.batch == None && x.(batch := Some(b)) in rows) {
      var i :| 0 <= i < |out| && out[i] == x;
      if rows[i].batch == Some(b) {
        assert x.(batch := Some(b)) == rows[i];
      }
    }
  }

  lemma ClearTagged(rows: seq<Row>, b: Ulid)
    requires Sorted(rows)
    ensures Sorted(ClearBatch(rows, b))
    ensures Tagged(ClearBatch(rows, b), Some(b)) == []
    ensures forall c :: c != b ==> Tagged(ClearBatch(rows, b), Some(c)) == Tagged(rows, Some(c))
  {
    var rows' := ClearBatch(rows, b);
    ClearMembership(rows, b);
    SelectNone(rows', HasBatch(Some(b)));
    forall c | c != b ensures Tagged(rows', Some(c)) == Tagged(rows, Some(c)) {
      SameTagged(rows', rows, Some(c));
    }
  }

  /** Taking the tag off all rows of a batch keeps the two tables consistent. */
  lemma UntaggingKeepsValid(db: Db, db': Db, b: Ulid)
    requires Valid(db) && Sorted(db'.rows) && db'.nextId == db.nextId && db'.inFlight == db.inFlight - {b}
    requires forall x :: x in db'.rows ==>
                           (x in db.rows && x.batch != Some(b)) || (x.batch == None && x.(batch := Some(b)) in db.rows)
    requires forall c :: c != b ==> Tagged(db'.rows, Some(c)) == Tagged(db.rows, Some(c))
    ensures Valid(db')
  {
  }

  lemma AckRetryEffect(db: Db, b: Ulid)
    requires Valid(db)
    ensures var db' := AckRetryDb(db, b);
            && Valid(db')
            && Tagged(db'.rows, Some(b)) == []
            && (forall c :: c != b ==> Tagged(db'.rows, Some(c)) == Tagged(db.rows, Some(c)))
            && (forall x :: x in db'.rows <==>
                  (x in db.rows && x.batch != Some(b)) || (x.batch == None && x.(batch := Some(b)) in db.rows))
            && |db'.rows| == |db.rows|
  {
    ClearTagged(db.rows, b);
    ClearMembership(db.rows, b);
    assert Valid(AckRetryDb(db, b)) by {
      UntaggingKeepsValid(db, AckRetryDb(db, b), b);
    }
  }
}
