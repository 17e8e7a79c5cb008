/**
 The SQLite tables of src/buffer.rs as values: `pending_samples` is a sequence of rows in
 primary-key order, `in_flight_batches` a map from batch id to send time. Each SQL transaction
 is a function from one database value to the next; class `BufferDb` runs them statement by
 statement.
 */
module SampleTable {
  import opened Common

  /** A 128-bit ULID; the code only ever compares batch ids for equality. */
  type Ulid = nat

  /** Connector id of the producer, None for the agent's default datasource. */
  type Origin = Option<string>

  datatype Sample = Sample(pointId: string, tsMs: int, value: real, quality: nat, attrs: map<string, string>)

  datatype Row = Row(id: nat, sample: Sample, batch: Option<Ulid>, origin: Origin)

  datatype ClaimedBatch = ClaimedBatch(batchId: Ulid, samples: seq<Sample>, origin: Origin)

  datatype Db = Db(rows: seq<Row>, nextId: nat, inFlight: map<Ulid, int>)

  const EMPTY_DB := Db([], 1, map[])

  // ---------------------------------------------------------------- queries

  ghost predicate Sorted(rows: seq<Row>) {
    forall i, j :: 0 <= i < j < |rows| ==> rows[i].id < rows[j].id
  }

  function Ids(rows: seq<Row>): set<nat> { set r | r in rows :: r.id }

  function IdList(rows: seq<Row>): seq<nat> { seq(|rows|, i requires 0 <= i < |rows| => rows[i].id) }

  function Samples(rows: seq<Row>): seq<Sample> { seq(|rows|, i requires 0 <= i < |rows| => rows[i].sample) }

  function HasBatch(t: Option<Ulid>): Row -> bool { (x: Row) => x.batch == t }

  /** WHERE batch_id IS t ORDER BY id */
  function Tagged(rows: seq<Row>, t: Option<Ulid>): (r: seq<Row>)
    ensures forall x :: x in r <==> x in rows && x.batch == t
  {
    Select(rows, HasBatch(t))
  }

  function Pending(rows: seq<Row>): (r: seq<Row>)
    ensures forall x :: x in r <==> x in rows && x.batch == None
  {
    Tagged(rows, None)
  }

  /** WHERE batch_id IS NOT NULL */
  function Claimed(rows: seq<Row>): (r: seq<Row>)
    ensures forall x :: x in r <==> x in rows && x.batch.Some?
  {
    Select(rows, (x: Row) => x.batch.Some?)
  }

  function OfOrigin(rows: seq<Row>, o: Origin): (r: seq<Row>)
    ensures forall x :: x in r <==> x in rows && x.origin == o
  {
    Select(rows, (x: Row) => x.origin == o)
  }

  /** LIMIT n */
  function Limit(rows: seq<Row>, n: nat): seq<Row> { rows[..Min(n, |rows|)] }

  /** DELETE ... WHERE id IN ids */
  function DeleteIds(rows: seq<Row>, ids: set<nat>): (r: seq<Row>)
    ensures forall x :: x in r <==> x in rows && x.id !in ids
  {
    Select(rows, (x: Row) => x.id !in ids)
  }

  /** DELETE ... WHERE batch_id = b */
  function DeleteBatch(rows: seq<Row>, b: Ulid): (r: seq<Row>)
    ensures forall x :: x in r <==> x in rows && x.batch != Some(b)
  {
    Select(rows, (x: Row) => x.batch != Some(b))
  }

  /** UPDATE ... SET batch_id = t WHERE id IN ids */
  function SetBatch(rows: seq<Row>, ids: set<nat>, t: Option<Ulid>): (r: seq<Row>)
    ensures |r| == |rows|
    ensures forall i :: 0 <= i < |rows| ==> r[i] == if rows[i].id in ids then rows[i].(batch := t) else rows[i]
  {
    seq(|rows|, i requires 0 <= i < |rows| => if rows[i].id in ids then rows[i].(batch := t) else rows[i])
  }

  /** UPDATE ... SET batch_id = NULL WHERE batch_id = b */
  function ClearBatch(rows: seq<Row>, b: Ulid): (r: seq<Row>)
    ensures |r| == |rows|
    ensures forall i :: 0 <= i < |rows| ==>
                          r[i] == if rows[i].batch == Some(b) then rows[i].(batch := None) else rows[i]
  {
    seq(|rows|, i requires 0 <= i < |rows| =>
      if rows[i].batch == Some(b) then rows[i].(batch := None) else rows[i])
  }

  /** The rows of one INSERT loop: AUTOINCREMENT hands out consecutive, never reused ids. */
  function NewRows(nextId: nat, origin: Origin, samples: seq<Sample>): seq<Row> {
    seq(|samples|, i requires 0 <= i < |samples| => Row(nextId + i, samples[i], None, origin))
  }

  // ----------------------------------------------------------- transactions

  /** How many rows an enqueue of `n` samples into a table of `total` asks to evict. */
  function EvictionQuota(total: nat, n: nat, maxRows: nat): nat {
    if total + n > maxRows then Max(total + n - maxRows, Max(maxRows / 100, 1)) else 0
  }

  function Victims(rows: seq<Row>, n: nat, maxRows: nat): seq<Row> {
    Limit(Pending(rows), EvictionQuota(|rows|, n, maxRows))
  }

  function EnqueueDb(db: Db, maxRows: nat, origin: Origin, samples: seq<Sample>): Db {
    if samples == [] then db
    else
      var kept := DeleteIds(db.rows, Ids(Victims(db.rows, |samples|, maxRows)));
      db.(rows := kept + NewRows(db.nextId, origin, samples), nextId := db.nextId + |samples|)
  }

  /** The rows the next claim takes: same origin as the oldest pending row, oldest first. */
  function NextClaim(rows: seq<Row>, maxSize: nat): seq<Row> {
    var pending := Pending(rows);
    if pending == [] then [] else Limit(OfOrigin(pending, pending[0].origin), maxSize)
  }

  function ClaimDb(db: Db, maxSize: nat, b: Ulid, nowMs: int): Db {
    db.(rows := SetBatch(db.rows, Ids(NextClaim(db.rows, maxSize)), Some(b)), inFlight := db.inFlight[b := nowMs])
  }

  /** What the agent reads back for batch `b`: samples by id, origin from any of its rows. */
  function BatchOf(rows: seq<Row>, b: Ulid): ClaimedBatch {
    var own := Tagged(rows, Some(b));
    ClaimedBatch(b, Samples(own), if own == [] then None else own[0].origin)
  }

  function AckOkDb(db: Db, b: Ulid): Db {
    db.(rows := DeleteBatch(db.rows, b), inFlight := db.inFlight - {b})
  }

  function AckRetryDb(db: Db, b: Ulid): Db {
    db.(rows := ClearBatch(db.rows, b), inFlight := db.inFlight - {b})
  }

  // -------------------------------------------------------------- invariant

  /**
   Consistency between the two tables: the non-null batch ids of the rows are exactly the keys of
   the in-flight table, and the rows of one batch share one origin.
   */
  ghost predicate Valid(db: Db) {
    && Sorted(db.rows)
    && (forall r :: r in db.rows ==> 1 <= r.id < db.nextId)
    && (forall r :: r in db.rows && r.batch.Some? ==> r.batch.value in db.inFlight)
    && (forall b :: b in db.inFlight ==> Tagged(db.rows, Some(b)) != [])
    && (forall r, s :: r in db.rows && s in db.rows && r.batch.Some? && r.batch == s.batch ==> r.origin == s.origin)
    && 1 <= db.nextId
  }

  // ------------------------------------------------------------ sorted rows

  /** Rows in id order are determined by which rows they are. */
  lemma {:induction false} SortedExt(a: seq<Row>, b: seq<Row>)
    requires Sorted(a) && Sorted(b)
    requires forall x :: x in a <==> x in b
    ensures a == b
  {
    assert a != [] ==> a[0] in b;
    assert b != [] ==> b[0] in a;
    if a != [] {
      assert a[0] == b[0];
      forall x ensures x in a[1..] <==> x in b[1..] {
        assert x in a <==> x == a[0] || x in a[1..];
        assert x in b <==> x == b[0] || x in b[1..];
      }
      SortedExt(a[1..], b[1..]);
    }
  }

  lemma {:induction false} SelectSorted(rows: seq<Row>, keep: Row -> bool)
    requires Sorted(rows)
    ensures Sorted(Select(rows, keep))
  {
    if rows != [] {
      var rest := Select(rows[1..], keep);
      assert Sorted(rest) by {
        assert Sorted(rows[1..]);
        SelectSorted(rows[1..], keep);
      }
      forall j | 0 <= j < |rest| ensures rows[0].id < rest[j].id {
        assert rest[j] in rows[1..];
      }
    }
  }

  /** A row is the only one with its id. */
  lemma IdUnique(rows: seq<Row>, r: Row, s: Row)
    requires Sorted(rows) && r in rows && s in rows && r.id == s.id
    ensures r == s
  {
  }

  lemma TaggedSorted(rows: seq<Row>)
    requires Sorted(rows)
    ensures forall t :: Sorted(Tagged(rows, t))
    ensures Sorted(Claimed(rows))
  {
    forall t ensures Sorted(Tagged(rows, t)) { SelectSorted(rows, HasBatch(t)); }
    SelectSorted(rows, (x: Row) => x.batch.Some?);
  }

  lemma OfOriginSorted(rows: seq<Row>, o: Origin)
    requires Sorted(rows)
    ensures Sorted(OfOrigin(rows, o))
  {
    SelectSorted(rows, (x: Row) => x.origin == o);
  }

  lemma DeleteIdsSorted(rows: seq<Row>, ids: set<nat>)
    requires Sorted(rows)
    ensures Sorted(DeleteIds(rows, ids))
  {
    SelectSorted(rows, (x: Row) => x.id !in ids);
  }

  lemma DeleteBatchSorted(rows: seq<Row>, b: Ulid)
    requires Sorted(rows)
    ensures Sorted(DeleteBatch(rows, b))
  {
    SelectSorted(rows, (x: Row) => x.batch != Some(b));
  }

  /** Two tables that agree on the rows tagged `t` before and after an update. */
  lemma SameTagged(a: seq<Row>, b: seq<Row>, t: Option<Ulid>)
    requires Sorted(a) && Sorted(b)
    requires forall x: Row :: x.batch == t ==> (x in a <==> x in b)
    ensures Tagged(a, t) == Tagged(b, t)
  {
    TaggedSorted(a);
    TaggedSorted(b);
    SortedExt(Tagged(a, t), Tagged(b, t));
  }
}
