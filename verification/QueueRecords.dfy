/**
 What the backends keep about each task, in runs of calls made one at a time: the hash of a
 task on Redis and its row on SQLite say exactly what the history of calls and answers says.
 */
module QueueRecords {
  import opened Commons
  import opened RedisStore
  import opened TwoBackends
  import Redis = RedisQueue
  import Sqlite = SqliteQueue
  import Abs = AbstractQueue

  /**
   What a history tells about one task: when it was enqueued and last touched, its status, its
   last setback, its payload with the retries counted, its payload as enqueued, and the count
   of the last retry.
   */
  datatype Story = Story(
    created: Option<Instant>, touched: Option<Instant>, status: Option<Status>, setback: Option<string>,
    payload: Option<Task>, enqueued: Option<Task>, column: int)

  const UNTOLD := Story(None, None, None, None, None, None, 0)

  function CountRetry(payload: Option<Task>, retry: int, max: int): Option<Task> {
    if payload.Some? then Some(payload.value.(retryCount := retry + 1, maxRetries := max)) else None
  }

  /** One call, made at time `now` and so answered, continues the story of `id`. */
  function Tell(story: Story, id: Uuid, call: Call, now: Instant, answer: Abs.Op): Story {
    match answer
    case Enqueued(i) =>
      if i == id && call.Enqueue? then
        Story(Some(now), Some(now), Some(Pending), story.setback, Some(call.t), Some(call.t), 0)
      else story
    case Dequeued(taken) =>
      if taken == Some(id) then story.(touched := Some(now), status := Some(Processing)) else story
    case Acked(i) => if i == id then story.(touched := Some(now), status := Some(Done)) else story
    case Nacked(i, retry, max, action) =>
      if i != id then story
      else if action.Retry? then
        story.(touched := Some(now), status := Some(Pending), setback := Some("nack: task failed"),
               payload := CountRetry(story.payload, retry, max), column := retry + 1)
      else story.(touched := Some(now), status := Some(Dead), setback := Some("nack: task failed"))
    case Reclaimed(moved) =>
      if id in moved then
        story.(touched := Some(now), status := Some(Pending), setback := Some("recovered: stale"))
      else story
  }

  /** `stories[n]` is the story of `id` after `n` calls. */
  ghost predicate Told(id: Uuid, stories: seq<Story>, calls: seq<Call>, clock: nat -> Instant, answers: seq<Abs.Op>) {
    && |stories| == |calls| + 1 && |answers| == |calls| && stories[0] == UNTOLD
    && forall i :: 0 <= i < |calls| ==> stories[i + 1] == Tell(stories[i], id, calls[i], clock(i), answers[i])
  }

  // ---- Redis ----

  function StampOf(t: Option<Instant>): Option<Stamp> { if t.Some? then Some(At(t.value)) else None }

  function DataOf(t: Option<Task>): Option<Data> { if t.Some? then Some(Json(t.value)) else None }

  /** The hash of a task, as its story tells it. */
  function HashOf(story: Story): Record {
    Record(DataOf(story.payload), story.status, StampOf(story.created), StampOf(story.touched), story.setback)
  }

  function Recovered(r: Record, now: Instant): Record {
    r.(status := Some(Pending), updatedAt := Some(At(now)), error := Some("recovered: stale"))
  }

  lemma RecoverOneWrites(st: Store, id: Uuid, now: Instant, x: Uuid)
    ensures RecordOf(Redis.RecoverOne(st, id, now), x) == if x == id then Recovered(RecordOf(st, id), now) else RecordOf(st, x)
  {
  }

  lemma {:induction false} RecoveryWrites(st: Store, ids: seq<Entry>, cutoff: Instant, now: Instant, k: nat, x: Uuid)
    requires now >= cutoff
    ensures RecordOf(Redis.RecoverFrom(st, ids, cutoff, _ => now, k).0, x) ==
      if Ref(x) in ids && Redis.Recoverable(st, Ref(x), cutoff) then Recovered(RecordOf(st, x), now) else RecordOf(st, x)
    decreases |ids|
  {
    if ids != [] {
      assert ids == [ids[0]] + ids[1..];
      if Redis.Recoverable(st, ids[0], cutoff) {
        var st1 := Redis.RecoverOne(st, ids[0].id, now);
        RecoveryWrites(st1, ids[1..], cutoff, now, k + 1, x);
        RecoverOneWrites(st, ids[0].id, now, x);
        Redis.RecoverOneSettles(st, ids[0].id, now, cutoff, Ref(x));
      } else {
        RecoveryWrites(st, ids[1..], cutoff, now, k + 1, x);
      }
    }
  }

  lemma EnqueueWrites(s: RedisState, t: Task, now: Instant, id: Uuid)
    ensures RecordOf(Redis.Enqueue(s.store, t, now), id) ==
      if id == t.taskId then
        Record(Some(Json(t)), Some(Pending), Some(At(now)), Some(At(now)), RecordOf(s.store, id).error)
      else RecordOf(s.store, id)
  {
  }

  lemma NackWrites(st: Store, x: Uuid, retry: int, max: int, now: Instant, id: Uuid)
    requires Readable(st, x) && TaskOf(st, x).taskId == x
    ensures var r, t := RecordOf(st, id), TaskOf(st, x);
      RecordOf(Redis.Nack(st, x, retry, max, now).0, id) ==
        if id != x then r
        else if retry < max then
          Record(Some(Json(t.(retryCount := retry + 1, maxRetries := max))), Some(Pending), r.createdAt, Some(At(now)),
                 Some("nack: task failed"))
        else r.(status := Some(Dead), updatedAt := Some(At(now)), error := Some("nack: task failed"))
  {
  }

  lemma DequeueWrites(st: Store, now: Instant, id: Uuid)
    requires Redis.Sound(st)
    ensures var (st', r) := Redis.Dequeue(st, now);
      r.Ok? && RecordOf(st', id) ==
        if Taken(r.value) == Some(id) then RecordOf(st, id).(status := Some(Processing), updatedAt := Some(At(now)))
        else RecordOf(st, id)
  {
    Redis.DequeueRefines(st, {}, now);
  }

  lemma AckWrites(st: Store, x: Uuid, now: Instant, id: Uuid)
    ensures RecordOf(Redis.Ack(st, x, now), id) ==
      if id == x then RecordOf(st, id).(status := Some(Done), updatedAt := Some(At(now))) else RecordOf(st, id)
  {
  }

  lemma NackHeld(s: RedisState, x: Uuid)
    requires Redis.Sound(s.store) && x in RedisView(s).processing
    ensures Readable(s.store, x) && TaskOf(s.store, x).taskId == x
  {
    Redis.InIdsIn(s.store.processing, x);
    assert Ref(x) in s.store.processing;
  }

  lemma EnqueueTells(s: RedisState, call: Call, now: Instant, answer: Abs.Op, s': RedisState, id: Uuid, story: Story)
    requires RedisDoes(s, call, now, answer, s') && call.Enqueue? && RecordOf(s.store, id) == HashOf(story)
    ensures RecordOf(s'.store, id) == HashOf(Tell(story, id, call, now, answer))
  {
    EnqueueWrites(s, call.t, now, id);
  }

  lemma DequeueTells(s: RedisState, call: Call, now: Instant, answer: Abs.Op, s': RedisState, id: Uuid, story: Story)
    requires Redis.Sound(s.store) && RedisDoes(s, call, now, answer, s') && call.Dequeue? && RecordOf(s.store, id) == HashOf(story)
    ensures RecordOf(s'.store, id) == HashOf(Tell(story, id, call, now, answer))
  {
    DequeueWrites(s.store, now, id);
  }

  lemma AckTells(s: RedisState, call: Call, now: Instant, answer: Abs.Op, s': RedisState, id: Uuid, story: Story)
    requires RedisDoes(s, call, now, answer, s') && call.Ack? && RecordOf(s.store, id) == HashOf(story)
    ensures RecordOf(s'.store, id) == HashOf(Tell(story, id, call, now, answer))
  {
    AckWrites(s.store, call.id, now, id);
  }

  lemma NackCall(s: RedisState, call: Call, now: Instant, answer: Abs.Op, s': RedisState)
    requires Redis.Sound(s.store) && RedisDoes(s, call, now, answer, s') && call.Nack?
    ensures Readable(s.store, call.id) && TaskOf(s.store, call.id).taskId == call.id
    ensures s'.store == Redis.Nack(s.store, call.id, call.retry, call.max, now).0
    ensures answer == Abs.Nacked(call.id, call.retry, call.max, if call.retry < call.max then Abs.Retry else Abs.DeadLetter)
  {
    NackHeld(s, call.id);
    NackAnswers(s.store, call.id, call.retry, call.max, now);
  }

  lemma NackTells(s: RedisState, call: Call, now: Instant, answer: Abs.Op, s': RedisState, id: Uuid, story: Story)
    requires Redis.Sound(s.store) && RedisDoes(s, call, now, answer, s') && call.Nack? && RecordOf(s.store, id) == HashOf(story)
    ensures RecordOf(s'.store, id) == HashOf(Tell(story, id, call, now, answer))
  {
    NackCall(s, call, now, answer, s');
    NackHash(s.store, s'.store, call, now, id);
    NackContinues(story, RecordOf(s.store, id), id, call, now, answer);
  }

  /** What a nack makes of a hash. */
  function AfterNack(r: Record, call: Call, now: Instant): Record
    requires call.Nack?
  {
    if call.retry >= call.max then r.(status := Some(Dead), updatedAt := Some(At(now)), error := Some("nack: task failed"))
    else if r.data.Some? && r.data.value.Json? then
      Record(Some(Json(r.data.value.task.(retryCount := call.retry + 1, maxRetries := call.max))), Some(Pending), r.createdAt,
             Some(At(now)), Some("nack: task failed"))
    else r
  }

  lemma NackHash(st: Store, st': Store, call: Call, now: Instant, id: Uuid)
    requires call.Nack? && Readable(st, call.id) && TaskOf(st, call.id).taskId == call.id
    requires st' == Redis.Nack(st, call.id, call.retry, call.max, now).0
    ensures RecordOf(st', id) == if id == call.id then AfterNack(RecordOf(st, id), call, now) else RecordOf(st, id)
    ensures RecordOf(st, call.id).data.Some? && RecordOf(st, call.id).data.value.Json?
  {
    NackWrites(st, call.id, call.retry, call.max, now, id);
  }

  lemma NackContinues(story: Story, r: Record, id: Uuid, call: Call, now: Instant, answer: Abs.Op)
    requires call.Nack? && r == HashOf(story)
    requires call.id == id ==> r.data.Some? && r.data.value.Json?
    requires answer == Abs.Nacked(call.id, call.retry, call.max, if call.retry < call.max then Abs.Retry else Abs.DeadLetter)
    ensures HashOf(Tell(story, id, call, now, answer)) == if call.id == id then AfterNack(r, call, now) else r
  {
  }

  lemma NackAnswers(st: Store, x: Uuid, retry: int, max: int, now: Instant)
    requires Readable(st, x)
    ensures Redis.Nack(st, x, retry, max, now).1 == Ok(if retry < max then Abs.Retry else Abs.DeadLetter)
  {
  }

  lemma RecoverTells(s: RedisState, call: Call, now: Instant, answer: Abs.Op, s': RedisState, id: Uuid, story: Story)
    requires RedisDoes(s, call, now, answer, s') && call.Recover? && RecordOf(s.store, id) == HashOf(story)
    ensures RecordOf(s'.store, id) == HashOf(Tell(story, id, call, now, answer))
  {
    RecoveryWrites(s.store, s.store.processing, call.cutoff, now, 0, id);
    Redis.InIdsIn(s.store.processing, id);
  }

  /** One call writes into the hash of each task what it adds to its story. */
  lemma RedisWrites(s: RedisState, call: Call, now: Instant, answer: Abs.Op, s': RedisState, id: Uuid, story: Story)
    requires Redis.Sound(s.store) && RedisDoes(s, call, now, answer, s') && RecordOf(s.store, id) == HashOf(story)
    ensures RecordOf(s'.store, id) == HashOf(Tell(story, id, call, now, answer))
  {
    match call
    case Enqueue(_) => EnqueueTells(s, call, now, answer, s', id, story);
    case Dequeue => DequeueTells(s, call, now, answer, s', id, story);
    case Ack(_) => AckTells(s, call, now, answer, s', id, story);
    case Nack(_, _, _) => NackTells(s, call, now, answer, s', id, story);
    case Recover(_) => RecoverTells(s, call, now, answer, s', id, story);
  }

  predicate HashIs(st: Store, id: Uuid, story: Story) { RecordOf(st, id) == HashOf(story) }

  lemma NothingTold(id: Uuid)
    ensures HashIs(EMPTY, id, UNTOLD)
  {
  }

  lemma OneCallTells(
      states: seq<RedisState>, calls: seq<Call>, clock: nat -> Instant, answers: seq<Abs.Op>, n: nat, id: Uuid, story: Story)
    requires RedisRuns(states, calls, clock, answers) && n < |calls| && HashIs(states[n].store, id, story)
    ensures HashIs(states[n + 1].store, id, Tell(story, id, calls[n], clock(n), answers[n]))
  {
    RedisStaysSound(states, calls, clock, answers, n);
    RedisWrites(states[n], calls[n], clock(n), answers[n], states[n + 1], id, story);
  }

  /** After every call of every run, the hash of every task is what its story tells. */
  lemma {:induction false} HashTellsStory(
      states: seq<RedisState>, calls: seq<Call>, clock: nat -> Instant, answers: seq<Abs.Op>, id: Uuid, stories: seq<Story>, n: nat)
    requires RedisRuns(states, calls, clock, answers) && Told(id, stories, calls, clock, answers) && n <= |calls|
    ensures HashIs(states[n].store, id, stories[n])
  {
    if n == 0 {
      NothingTold(id);
    } else {
      HashTellsStory(states, calls, clock, answers, id, stories, n - 1);
      OneCallTells(states, calls, clock, answers, n - 1, id, stories[n - 1]);
    }
  }

  // ---- SQLite ----

  /** The row of a task, as its story tells it: there is one from its enqueueing to its ack. */
  predicate RowIs(rows: Sqlite.Table, id: Uuid, story: Story) {
    && (id in rows <==> story.status.Some? && story.status != Some(Done))
    && (id in rows ==>
          && story.enqueued.Some? && story.created.Some? && story.touched.Some?
          && rows[id].payload == story.enqueued.value && rows[id].retryCount == story.column
          && rows[id].createdAt == story.created.value && rows[id].updatedAt == story.touched.value
          && rows[id].status == RowStatusOf(story.status)
          && rows[id].claimedAt == if story.status == Some(Processing) then story.touched else None)
  }

  function RowStatusOf(s: Option<Status>): Sqlite.RowStatus {
    match s
    case Some(Processing) => Sqlite.RowProcessing
    case Some(Dead) => Sqlite.RowDead
    case _ => Sqlite.RowPending
  }

  lemma SqliteWrites(s: SqliteState, call: Call, now: Instant, answer: Abs.Op, s': SqliteState, id: Uuid, story: Story)
    requires Sqlite.ClaimInv(s.rows) && SqliteDoes(s, call, now, answer, s') && RowIs(s.rows, id, story)
    requires id in s.finished <==> story.status == Some(Done)
    ensures RowIs(s'.rows, id, Tell(story, id, call, now, answer))
    ensures id in s'.finished <==> Tell(story, id, call, now, answer).status == Some(Done)
  {
    match call
    case Enqueue(t) => SqliteEnqueueWrites(s, t, now, id, story);
    case Dequeue =>
    case Ack(_) =>
    case Nack(_, _, _) =>
    case Recover(_) =>
  }

  lemma SqliteEnqueueWrites(s: SqliteState, t: Task, now: Instant, id: Uuid, story: Story)
    requires RowIs(s.rows, id, story) && Abs.Fresh(SqliteView(s), t.taskId)
    ensures RowIs(Sqlite.Insert(s.rows, t, now), id, Tell(story, id, Enqueue(t), now, Abs.Enqueued(t.taskId)))
  {
  }

  /** After every call of every run, the row of every task is what its story tells. */
  lemma {:induction false} RowTellsStory(
      states: seq<SqliteState>, calls: seq<Call>, clock: nat -> Instant, answers: seq<Abs.Op>, id: Uuid, stories: seq<Story>, n: nat)
    requires SqliteRuns(states, calls, clock, answers) && Told(id, stories, calls, clock, answers) && n <= |calls|
    ensures RowIs(states[n].rows, id, stories[n]) && (id in states[n].finished <==> stories[n].status == Some(Done))
  {
    if n > 0 {
      RowTellsStory(states, calls, clock, answers, id, stories, n - 1);
      SqliteStaysSound(states, calls, clock, answers, n - 1);
      SqliteWrites(states[n - 1], calls[n - 1], clock(n - 1), answers[n - 1], states[n], id, stories[n - 1]);
    }
  }
}
