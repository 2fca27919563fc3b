/**
 The SQLite queue: the table `pending_tasks` keyed by task id, changed by one statement per
 operation, and its refinement of the abstract queue.
 */
module SqliteQueue {
  import opened Commons
  import opened RedisStore
  import Abs = AbstractQueue

  datatype RowStatus = RowPending | RowProcessing | RowDead

  datatype Row = Row(
    payload: Task, status: RowStatus, retryCount: int, claimedAt: Option<Instant>,
    updatedAt: Instant, createdAt: Instant)

  type Table = map<Uuid, Row>

  // ---- The statements ----

  function Insert(rows: Table, t: Task, now: Instant): Table {
    rows[t.taskId := Row(t, RowPending, 0, None, now, now)]
  }

  /** The filter of the dequeue statement. */
  predicate Eligible(rows: Table, id: Uuid) {
    id in rows && rows[id].status == RowPending && rows[id].claimedAt == None
  }

  /** ORDER BY created_at LIMIT 1; which of several oldest rows it returns is left open. */
  predicate Selected(rows: Table, id: Uuid) {
    Eligible(rows, id) && forall other :: other in rows && Eligible(rows, other) ==> rows[id].createdAt <= rows[other].createdAt
  }

  function Claim(rows: Table, id: Uuid, now: Instant): Table
    requires id in rows
  {
    rows[id := rows[id].(status := RowProcessing, claimedAt := Some(now), updatedAt := now)]
  }

  function Delete(rows: Table, id: Uuid): Table { rows - {id} }

  function NackRow(row: Row, retry: int, max: int, now: Instant): Row {
    if retry < max then row.(status := RowPending, claimedAt := None, retryCount := retry + 1, updatedAt := now)
    else row.(status := RowDead, claimedAt := None, updatedAt := now)
  }

  function Nack(rows: Table, id: Uuid, retry: int, max: int, now: Instant): Table {
    if id in rows then rows[id := NackRow(rows[id], retry, max, now)] else rows
  }

  function NackAnswer(retry: int, max: int): Abs.NackAction { if retry < max then Abs.Retry else Abs.DeadLetter }

  function Reclaim(rows: Table, now: Instant): Table {
    map id | id in rows ::
      if rows[id].status == RowProcessing then rows[id].(status := RowPending, claimedAt := None, updatedAt := now)
      else rows[id]
  }

  // ---- The invariant ----

  /** A row is in processing exactly when it is claimed, and carries the payload of its key. */
  predicate ClaimInv(rows: Table) {
    forall id :: id in rows ==>
      (rows[id].status == RowProcessing <==> rows[id].claimedAt.Some?) && rows[id].payload.taskId == id
  }

  ghost function WithStatus(rows: Table, status: RowStatus): set<Uuid> {
    set id | id in rows && rows[id].status == status
  }

  ghost function View(rows: Table, finished: set<Uuid>): Abs.Queue {
    Abs.Queue(WithStatus(rows, RowPending), WithStatus(rows, RowProcessing), WithStatus(rows, RowDead), finished)
  }

  /** No pending row is hidden from the dequeue filter. */
  lemma PendingIsEligible(rows: Table, id: Uuid)
    requires ClaimInv(rows)
    ensures Eligible(rows, id) <==> id in View(rows, {}).pending
  {
  }

  lemma {:induction false} OldestAmong(rows: Table, ids: set<Uuid>) returns (least: Uuid)
    requires ids != {} && ids <= rows.Keys
    ensures least in ids && forall other :: other in ids ==> rows[least].createdAt <= rows[other].createdAt
    decreases |ids|
  {
    NonEmpty(ids);
    least :| least in ids;
    var rest := ids - {least};
    if rest != {} {
      var other := OldestAmong(rows, rest);
      if rows[other].createdAt < rows[least].createdAt {
        least := other;
      }
    }
  }

  /** A dequeue finds a row unless nothing is pending. */
  lemma SomeSelected(rows: Table)
    requires exists id :: Eligible(rows, id)
    ensures exists id :: id in rows && Selected(rows, id)
  {
    var ids := set id | id in rows && Eligible(rows, id);
    var some :| Eligible(rows, some);
    assert some in ids;
    var least := OldestAmong(rows, ids);
    assert Selected(rows, least);
  }

  // ---- Refinement of the abstract queue ----

  lemma InsertRefines(rows: Table, finished: set<Uuid>, t: Task, now: Instant)
    requires ClaimInv(rows) && Abs.Fresh(View(rows, finished), t.taskId)
    ensures var rows' := Insert(rows, t, now);
      ClaimInv(rows') && Abs.Does(View(rows, finished), Abs.Enqueued(t.taskId), View(rows', finished))
  {
    assert t.taskId in rows ==> rows[t.taskId].status in {RowPending, RowProcessing, RowDead};
  }

  lemma ClaimRefines(rows: Table, finished: set<Uuid>, id: Uuid, now: Instant)
    requires ClaimInv(rows) && Selected(rows, id)
    ensures var rows' := Claim(rows, id, now);
      ClaimInv(rows') && Abs.Does(View(rows, finished), Abs.Dequeued(Some(id)), View(rows', finished))
  {
  }

  lemma NothingRefines(rows: Table, finished: set<Uuid>)
    requires ClaimInv(rows) && !exists id :: id in rows && Eligible(rows, id)
    ensures Abs.Does(View(rows, finished), Abs.Dequeued(None), View(rows, finished))
  {
    forall id ensures id !in WithStatus(rows, RowPending) {
      PendingIsEligible(rows, id);
    }
  }

  lemma DeleteRefines(rows: Table, finished: set<Uuid>, id: Uuid)
    requires ClaimInv(rows) && id in WithStatus(rows, RowProcessing)
    ensures var rows' := Delete(rows, id);
      ClaimInv(rows') && Abs.Does(View(rows, finished), Abs.Acked(id), View(rows', finished + {id}))
  {
  }

  lemma NackRefines(rows: Table, finished: set<Uuid>, id: Uuid, retry: int, max: int, now: Instant)
    requires ClaimInv(rows) && id in WithStatus(rows, RowProcessing)
    ensures var rows' := Nack(rows, id, retry, max, now);
      && ClaimInv(rows')
      && Abs.Does(View(rows, finished), Abs.Nacked(id, retry, max, NackAnswer(retry, max)), View(rows', finished))
  {
  }

  /** `reclaim_stale` moves every row in processing, so every row that is not dead can be dequeued. */
  lemma ReclaimRefines(rows: Table, finished: set<Uuid>, now: Instant)
    requires ClaimInv(rows)
    ensures var rows' := Reclaim(rows, now);
      && ClaimInv(rows')
      && Abs.Does(View(rows, finished), Abs.Reclaimed(View(rows, finished).processing), View(rows', finished))
      && forall id :: id in rows && rows[id].status != RowDead ==> Eligible(rows', id)
  {
  }

  /** Even an ack or nack of an id that is not held keeps the invariant. */
  lemma AnyIdKeepsInvariant(rows: Table, id: Uuid, retry: int, max: int, now: Instant)
    requires ClaimInv(rows)
    ensures ClaimInv(Delete(rows, id)) && ClaimInv(Nack(rows, id, retry, max, now))
  {
  }

  class SqliteQueue {
    var rows: Table
    ghost var finished: set<Uuid>

    ghost predicate Valid()
      reads this
    {
      ClaimInv(rows)
    }

    ghost function Queue(): Abs.Queue
      reads this
    {
      View(rows, finished)
    }

    constructor ()
      ensures Valid() && rows == map[] && finished == {}
    {
      rows, finished := map[], {};
    }

    /** Fails on a duplicate key and then changes nothing. */
    method Enqueue(t: Task, now: Instant) returns (ok: bool)
      requires Valid()
      modifies this
      ensures Valid() && finished == old(finished)
      ensures ok <==> t.taskId !in old(rows)
      ensures rows == if ok then Insert(old(rows), t, now) else old(rows)
      ensures ok && t.taskId !in finished ==> Abs.Does(old(Queue()), Abs.Enqueued(t.taskId), Queue())
    {
      if t.taskId in rows {
        return false;
      }
      if t.taskId !in finished {
        InsertRefines(rows, finished, t, now);
      }
      rows := rows[t.taskId := Row(t, RowPending, 0, None, now, now)];
      return true;
    }

    /** The payload returned is the one stored at enqueueing: the `retry_count` column is not read. */
    method Dequeue(now: Instant) returns (r: Option<Task>)
      requires Valid()
      modifies this
      ensures Valid() && finished == old(finished)
      ensures r.None? ==> rows == old(rows) && old(Queue()).pending == {}
      ensures r.Some? ==>
        && Selected(old(rows), r.value.taskId) && r.value == old(rows)[r.value.taskId].payload
        && rows == Claim(old(rows), r.value.taskId, now)
      ensures r.Some? ==> forall other :: other in old(rows) && old(rows)[other].status == RowPending ==>
        old(rows)[r.value.taskId].createdAt <= old(rows)[other].createdAt
      ensures Abs.Does(old(Queue()), Abs.Dequeued(if r.Some? then Some(r.value.taskId) else None), Queue())
    {
      if !exists id :: id in rows && Eligible(rows, id) {
        NothingRefines(rows, finished);
        return None;
      }
      SomeSelected(rows);
      var id :| id in rows && Selected(rows, id);
      ClaimRefines(rows, finished, id, now);
      r := Some(rows[id].payload);
      rows := rows[id := rows[id].(status := RowProcessing, claimedAt := Some(now), updatedAt := now)];
    }

    method Ack(id: Uuid)
      requires Valid()
      modifies this
      ensures Valid() && rows == Delete(old(rows), id) && finished == old(finished) + {id}
      ensures id in old(Queue()).processing ==> Abs.Does(old(Queue()), Abs.Acked(id), Queue())
    {
      if id in WithStatus(rows, RowProcessing) {
        DeleteRefines(rows, finished, id);
      }
      rows := rows - {id};
      finished := finished + {id};
    }

    method NackTask(id: Uuid, retry: int, max: int, now: Instant) returns (action: Abs.NackAction)
      requires Valid()
      modifies this
      ensures Valid() && rows == Nack(old(rows), id, retry, max, now) && finished == old(finished)
      ensures id in old(Queue()).processing ==> Abs.Does(old(Queue()), Abs.Nacked(id, retry, max, action), Queue())
    {
      if id in WithStatus(rows, RowProcessing) {
        NackRefines(rows, finished, id, retry, max, now);
      }
      if retry < max {
        if id in rows {
          rows := rows[id := rows[id].(status := RowPending, claimedAt := None, retryCount := retry + 1, updatedAt := now)];
        }
        return Abs.Retry;
      } else {
        if id in rows {
          rows := rows[id := rows[id].(status := RowDead, claimedAt := None, updatedAt := now)];
        }
        return Abs.DeadLetter;
      }
    }

    method ReclaimStale(now: Instant)
      requires Valid()
      modifies this
      ensures Valid() && rows == Reclaim(old(rows), now) && finished == old(finished)
      ensures Abs.Does(old(Queue()), Abs.Reclaimed(old(Queue()).processing), Queue())
      ensures forall id :: id in rows && rows[id].status != RowDead ==> Eligible(rows, id)
    {
      ReclaimRefines(rows, finished, now);
      rows := map id | id in rows ::
        if rows[id].status == RowProcessing then rows[id].(status := RowPending, claimedAt := None, updatedAt := now)
        else rows[id];
    }
  }
}
