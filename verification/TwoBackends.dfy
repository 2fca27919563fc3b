/**
 One queue, two backends: the same calls, made on the Redis queue from an empty store and on
 the SQLite queue from an empty table, and answered alike, leave both in the same abstract
 state after every call. Task ids are fresh, and acks and nacks come from the holder.
 */
module TwoBackends {
  import opened Commons
  import opened RedisStore
  import Redis = RedisQueue
  import Sqlite = SqliteQueue
  import Abs = AbstractQueue

  datatype Call =
    | Enqueue(t: Task)
    | Dequeue
    | Ack(id: Uuid)
    | Nack(id: Uuid, retry: int, max: int)
    | Recover(cutoff: Instant)         // SQLite has no cutoff: it reclaims every claimed row

  datatype RedisState = RedisState(store: Store, finished: set<Uuid>)

  datatype SqliteState = SqliteState(rows: Sqlite.Table, finished: set<Uuid>)

  ghost function RedisView(s: RedisState): Abs.Queue { Redis.View(s.store, s.finished) }

  ghost function SqliteView(s: SqliteState): Abs.Queue { Sqlite.View(s.rows, s.finished) }

  /** The id a dequeue answers with. */
  function Taken(r: Option<Task>): Option<Uuid> { if r.Some? then Some(r.value.taskId) else None }

  /** A call of the Redis queue at time `now`, with its answer. */
  ghost predicate RedisDoes(s: RedisState, call: Call, now: Instant, answer: Abs.Op, s': RedisState) {
    match call
    case Enqueue(t) =>
      && Abs.Fresh(RedisView(s), t.taskId) && answer == Abs.Enqueued(t.taskId)
      && s' == RedisState(Redis.Enqueue(s.store, t, now), s.finished)
    case Dequeue =>
      var (store, r) := Redis.Dequeue(s.store, now);
      r.Ok? && answer == Abs.Dequeued(Taken(r.value)) && s' == RedisState(store, s.finished)
    case Ack(id) =>
      && id in RedisView(s).processing && answer == Abs.Acked(id)
      && s' == RedisState(Redis.Ack(s.store, id, now), s.finished + {id})
    case Nack(id, retry, max) =>
      var (store, r) := Redis.Nack(s.store, id, retry, max, now);
      && id in RedisView(s).processing && r.Ok? && answer == Abs.Nacked(id, retry, max, r.value)
      && s' == RedisState(store, s.finished)
    case Recover(cutoff) =>
      && cutoff <= now && answer == Abs.Reclaimed(Redis.RecoveredIds(s.store, cutoff))
      && s' == RedisState(Redis.Recover(s.store, cutoff, _ => now).0, s.finished)
  }

  /** A call of the SQLite queue; a dequeue may return any of the oldest rows. */
  ghost predicate SqliteDoes(s: SqliteState, call: Call, now: Instant, answer: Abs.Op, s': SqliteState) {
    match call
    case Enqueue(t) =>
      && Abs.Fresh(SqliteView(s), t.taskId) && answer == Abs.Enqueued(t.taskId)
      && s' == SqliteState(Sqlite.Insert(s.rows, t, now), s.finished)
    case Dequeue =>
      if exists id :: Sqlite.Eligible(s.rows, id) then
        exists id :: Sqlite.Selected(s.rows, id) && answer == Abs.Dequeued(Some(id))
                     && s' == SqliteState(Sqlite.Claim(s.rows, id, now), s.finished)
      else answer == Abs.Dequeued(None) && s' == s
    case Ack(id) =>
      && id in SqliteView(s).processing && answer == Abs.Acked(id)
      && s' == SqliteState(Sqlite.Delete(s.rows, id), s.finished + {id})
    case Nack(id, retry, max) =>
      && id in SqliteView(s).processing && answer == Abs.Nacked(id, retry, max, Sqlite.NackAnswer(retry, max))
      && s' == SqliteState(Sqlite.Nack(s.rows, id, retry, max, now), s.finished)
    case Recover(_) =>
      && answer == Abs.Reclaimed(SqliteView(s).processing)
      && s' == SqliteState(Sqlite.Reclaim(s.rows, now), s.finished)
  }

  lemma RedisRefines(s: RedisState, call: Call, now: Instant, answer: Abs.Op, s': RedisState)
    requires Redis.Sound(s.store) && RedisDoes(s, call, now, answer, s')
    ensures Redis.Sound(s'.store) && Abs.Does(RedisView(s), answer, RedisView(s'))
  {
    match call
    case Enqueue(t) => Redis.EnqueueRefines(s.store, s.finished, t, now);
    case Dequeue => Redis.DequeueRefines(s.store, s.finished, now);
    case Ack(id) => Redis.AckRefines(s.store, s.finished, id, now);
    case Nack(id, retry, max) => Redis.NackRefines(s.store, s.finished, id, retry, max, now);
    case Recover(cutoff) => Redis.RecoverRefines(s.store, s.finished, cutoff, _ => now);
  }

  lemma SqliteRefines(s: SqliteState, call: Call, now: Instant, answer: Abs.Op, s': SqliteState)
    requires Sqlite.ClaimInv(s.rows) && SqliteDoes(s, call, now, answer, s')
    ensures Sqlite.ClaimInv(s'.rows) && Abs.Does(SqliteView(s), answer, SqliteView(s'))
  {
    match call
    case Enqueue(t) => Sqlite.InsertRefines(s.rows, s.finished, t, now);
    case Dequeue =>
      if exists id :: Sqlite.Eligible(s.rows, id) {
        var id :| Sqlite.Selected(s.rows, id) && answer == Abs.Dequeued(Some(id))
                  && s' == SqliteState(Sqlite.Claim(s.rows, id, now), s.finished);
        Sqlite.ClaimRefines(s.rows, s.finished, id, now);
      } else {
        Sqlite.NothingRefines(s.rows, s.finished);
      }
    case Ack(id) => Sqlite.DeleteRefines(s.rows, s.finished, id);
    case Nack(id, retry, max) => Sqlite.NackRefines(s.rows, s.finished, id, retry, max, now);
    case Recover(_) => Sqlite.ReclaimRefines(s.rows, s.finished, now);
  }

  // ---- Runs ----

  ghost predicate RedisRuns(states: seq<RedisState>, calls: seq<Call>, clock: nat -> Instant, answers: seq<Abs.Op>) {
    && |states| == |calls| + 1 && |answers| == |calls| && states[0] == RedisState(EMPTY, {})
    && forall i :: 0 <= i < |calls| ==> RedisDoes(states[i], calls[i], clock(i), answers[i], states[i + 1])
  }

  ghost predicate SqliteRuns(states: seq<SqliteState>, calls: seq<Call>, clock: nat -> Instant, answers: seq<Abs.Op>) {
    && |states| == |calls| + 1 && |answers| == |calls| && states[0] == SqliteState(map[], {})
    && forall i :: 0 <= i < |calls| ==> SqliteDoes(states[i], calls[i], clock(i), answers[i], states[i + 1])
  }

  ghost function RedisViews(states: seq<RedisState>): seq<Abs.Queue> {
    seq(|states|, i requires 0 <= i < |states| => RedisView(states[i]))
  }

  ghost function SqliteViews(states: seq<SqliteState>): seq<Abs.Queue> {
    seq(|states|, i requires 0 <= i < |states| => SqliteView(states[i]))
  }

  lemma {:induction false} RedisStaysSound(states: seq<RedisState>, calls: seq<Call>, clock: nat -> Instant, answers: seq<Abs.Op>, n: nat)
    requires RedisRuns(states, calls, clock, answers) && n <= |calls|
    ensures Redis.Sound(states[n].store)
  {
    if n > 0 {
      RedisStaysSound(states, calls, clock, answers, n - 1);
      RedisRefines(states[n - 1], calls[n - 1], clock(n - 1), answers[n - 1], states[n]);
    }
  }

  /** Every run of the Redis queue is a run of the abstract queue with the same answers. */
  lemma RedisTrace(states: seq<RedisState>, calls: seq<Call>, clock: nat -> Instant, answers: seq<Abs.Op>)
    requires RedisRuns(states, calls, clock, answers)
    ensures Abs.Trace(RedisViews(states), answers)
  {
    forall i | 0 <= i < |answers| ensures Abs.Does(RedisViews(states)[i], answers[i], RedisViews(states)[i + 1]) {
      RedisStaysSound(states, calls, clock, answers, i);
      RedisRefines(states[i], calls[i], clock(i), answers[i], states[i + 1]);
    }
  }

  lemma {:induction false} SqliteStaysSound(states: seq<SqliteState>, calls: seq<Call>, clock: nat -> Instant, answers: seq<Abs.Op>, n: nat)
    requires SqliteRuns(states, calls, clock, answers) && n <= |calls|
    ensures Sqlite.ClaimInv(states[n].rows)
  {
    if n > 0 {
      SqliteStaysSound(states, calls, clock, answers, n - 1);
      SqliteRefines(states[n - 1], calls[n - 1], clock(n - 1), answers[n - 1], states[n]);
    }
  }

  /** Every run of the SQLite queue is one, too. */
  lemma SqliteTrace(states: seq<SqliteState>, calls: seq<Call>, clock: nat -> Instant, answers: seq<Abs.Op>)
    requires SqliteRuns(states, calls, clock, answers)
    ensures Abs.Trace(SqliteViews(states), answers)
  {
    forall i | 0 <= i < |answers| ensures Abs.Does(SqliteViews(states)[i], answers[i], SqliteViews(states)[i + 1]) {
      SqliteStaysSound(states, calls, clock, answers, i);
      SqliteRefines(states[i], calls[i], clock(i), answers[i], states[i + 1]);
    }
  }

  lemma EmptyViews()
    ensures RedisView(RedisState(EMPTY, {})) == SqliteView(SqliteState(map[], {})) == Abs.Queue({}, {}, {}, {})
  {
  }

  /**
   The same calls with the same answers, each backend at its own clock: after every call the
   two queues hold the same pending, processing, dead and finished ids, in no two places and
   never fewer than before.
   */
  lemma SameAnswersSameQueue(
      redis: seq<RedisState>, sqlite: seq<SqliteState>, calls: seq<Call>, redisClock: nat -> Instant,
      sqliteClock: nat -> Instant, answers: seq<Abs.Op>)
    requires RedisRuns(redis, calls, redisClock, answers) && SqliteRuns(sqlite, calls, sqliteClock, answers)
    ensures forall n :: 0 <= n <= |calls| ==>
      RedisView(redis[n]) == SqliteView(sqlite[n]) && Abs.Partitioned(RedisView(redis[n]))
  {
    RedisTrace(redis, calls, redisClock, answers);
    SqliteTrace(sqlite, calls, sqliteClock, answers);
    EmptyViews();
    Abs.SameOpsSameQueue(RedisViews(redis), SqliteViews(sqlite), answers);
    Abs.IdsAreKept(RedisViews(redis), answers);
    forall n | 0 <= n <= |calls|
      ensures RedisView(redis[n]) == SqliteView(sqlite[n]) && Abs.Partitioned(RedisView(redis[n]))
    {
      assert RedisViews(redis)[n] == SqliteViews(sqlite)[n];
    }
  }

  lemma OneTaskOnRedis(t: Task, clock: nat -> Instant) returns (states: seq<RedisState>)
    ensures RedisRuns(states, [Enqueue(t), Dequeue], clock, [Abs.Enqueued(t.taskId), Abs.Dequeued(Some(t.taskId))])
  {
    var s0 := RedisState(EMPTY, {});
    var s1 := RedisState(Redis.Enqueue(EMPTY, t, clock(0)), {});
    assert Abs.Fresh(RedisView(s0), t.taskId);
    assert s1.store.pending == [Ref(t.taskId)] && RecordOf(s1.store, t.taskId).data == Some(Json(t));
    assert Redis.Dequeue(s1.store, clock(1)).1 == Ok(Some(t));
    states := [s0, s1, RedisState(Redis.Dequeue(s1.store, clock(1)).0, {})];
  }

  lemma OneTaskOnSqlite(t: Task, clock: nat -> Instant) returns (states: seq<SqliteState>)
    ensures SqliteRuns(states, [Enqueue(t), Dequeue], clock, [Abs.Enqueued(t.taskId), Abs.Dequeued(Some(t.taskId))])
  {
    var s0 := SqliteState(map[], {});
    var s1 := SqliteState(Sqlite.Insert(map[], t, clock(0)), {});
    var s2 := SqliteState(Sqlite.Claim(s1.rows, t.taskId, clock(1)), {});
    assert Abs.Fresh(SqliteView(s0), t.taskId);
    assert Sqlite.Selected(s1.rows, t.taskId);
    states := [s0, s1, s2];
  }

  /** The backends do answer alike, if only where there is no choice. */
  lemma AlikeForOneTask(t: Task, clock: nat -> Instant)
    ensures exists redis, sqlite, answers ::
      RedisRuns(redis, [Enqueue(t), Dequeue], clock, answers) && SqliteRuns(sqlite, [Enqueue(t), Dequeue], clock, answers)
  {
    var redis := OneTaskOnRedis(t, clock);
    var sqlite := OneTaskOnSqlite(t, clock);
  }
}
