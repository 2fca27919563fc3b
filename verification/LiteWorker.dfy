/**
 The embedded worker of lite mode over the SQLite queue: one in-process loop that dequeues,
 runs the pipeline and acks or nacks, with restarts that reclaim what a crash left behind.

 The nack stores `retry + 1` in the column `retry_count`, but the dequeue returns the
 payload as it was enqueued. With `feed = false` this is the code as written: retries are
 never exhausted. With `feed = true` the stored column is fed back into the payload, which
 restores the retry bound.
 */
module LiteWorker {
  import opened Commons
  import opened RedisStore
  import opened SqliteQueue
  import opened Sums

  /** The table, the payload the worker holds, and for each id its enqueued payload and its failures. */
  datatype Lite = Lite(rows: Table, held: Option<Task>, enqueued: map<Uuid, Task>, failures: map<Uuid, nat>)

  const START := Lite(map[], None, map[], map[])

  datatype LiteOp =
    | Enqueue(t: Task)
    | Dequeue(id: Uuid)   // which of the oldest rows the statement returned
    | Succeed
    | Fail
    | Restart             // the process dies and starts again

  function Failures(s: Lite, id: Uuid): nat { if id in s.failures then s.failures[id] else 0 }

  function Larger(a: int, b: int): int { if a < b then b else a }

  /** The payload a dequeue hands to the worker. */
  function Handed(feed: bool, row: Row): Task {
    if feed then row.payload.(retryCount := Larger(row.payload.retryCount, row.retryCount)) else row.payload
  }

  predicate Can(s: Lite, op: LiteOp) {
    match op
    case Enqueue(t) => t.taskId !in s.enqueued
    case Dequeue(id) => s.held == None && Selected(s.rows, id)
    case Succeed => s.held.Some?
    case Fail => s.held.Some?
    case Restart => true
  }

  function Do(feed: bool, s: Lite, op: LiteOp, now: Instant): Lite
    requires Can(s, op)
  {
    match op
    case Enqueue(t) => s.(rows := Insert(s.rows, t, now), enqueued := s.enqueued[t.taskId := t])
    case Dequeue(id) => s.(rows := Claim(s.rows, id, now), held := Some(Handed(feed, s.rows[id])))
    case Succeed => s.(rows := Delete(s.rows, s.held.value.taskId), held := None)
    case Fail =>
      var t := s.held.value;
      s.(rows := Nack(s.rows, t.taskId, t.retryCount, t.maxRetries, now), held := None,
         failures := s.failures[t.taskId := Failures(s, t.taskId) + 1])
    case Restart => s.(rows := Reclaim(s.rows, now), held := None)
  }

  /** Tasks come with a non-negative retry count. */
  predicate Counted(op: LiteOp) { op.Enqueue? ==> op.t.retryCount >= 0 }

  /** A run: `states[i]` is the state before `ops[i]`, which happens at `clock(i)`. */
  ghost predicate Runs(feed: bool, states: seq<Lite>, ops: seq<LiteOp>, clock: nat -> Instant) {
    && |states| == |ops| + 1 && states[0] == START
    && forall i :: 0 <= i < |ops| ==>
         Can(states[i], ops[i]) && Counted(ops[i]) && states[i + 1] == Do(feed, states[i], ops[i], clock(i))
  }

  // ---- What every run keeps ----

  predicate RowOk(feed: bool, s: Lite, id: Uuid) {
    if id in s.rows then
      var row := s.rows[id];
      && id in s.enqueued && row.payload == s.enqueued[id] && row.payload.taskId == id && row.payload.retryCount >= 0
      && (row.status == RowProcessing <==> row.claimedAt.Some?)
      && if feed then RetryRow(s, row) else PlainRow(s, row)
    else id in s.failures ==> id in s.enqueued
  }

  /**
   As coded: a row is dead exactly when it failed and came without retries, and its column
   never shows more than one retry.
   */
  predicate PlainRow(s: Lite, row: Row) {
    && (row.status == RowDead <==>
          Failures(s, row.payload.taskId) > 0 && row.payload.retryCount >= row.payload.maxRetries)
    && row.retryCount in {0, row.payload.retryCount + 1}
  }

  /** Fed back: the column counts the failures, and a dead row used up its budget. */
  predicate RetryRow(s: Lite, row: Row) {
    var spent := Handed(true, row).retryCount - row.payload.retryCount;
    && 0 <= spent <= Budget(row.payload)
    && Failures(s, row.payload.taskId) == (if row.status == RowDead then spent + 1 else spent)
    && (row.status == RowDead ==> spent == Budget(row.payload))
  }

  predicate HeldOk(feed: bool, s: Lite) {
    s.held.Some? ==>
      var t := s.held.value;
      t.taskId in s.rows && s.rows[t.taskId].status == RowProcessing && t == Handed(feed, s.rows[t.taskId])
  }

  ghost predicate LiteInv(feed: bool, s: Lite) {
    (forall id :: RowOk(feed, s, id)) && HeldOk(feed, s)
  }

  lemma FailKeepsRow(feed: bool, s: Lite, now: Instant, id: Uuid)
    requires RowOk(feed, s, id) && HeldOk(feed, s) && s.held.Some?
    ensures RowOk(feed, Do(feed, s, Fail, now), id)
  {
  }

  lemma EnqueueKeepsRow(feed: bool, s: Lite, t: Task, now: Instant, id: Uuid)
    requires RowOk(feed, s, id) && Can(s, Enqueue(t)) && Counted(Enqueue(t))
    ensures RowOk(feed, Do(feed, s, Enqueue(t), now), id)
  {
  }

  lemma OtherKeepsRow(feed: bool, s: Lite, op: LiteOp, now: Instant, id: Uuid)
    requires RowOk(feed, s, id) && Can(s, op) && !op.Fail? && !op.Enqueue?
    ensures RowOk(feed, Do(feed, s, op, now), id)
  {
  }

  lemma KeepsHeld(feed: bool, s: Lite, op: LiteOp, now: Instant)
    requires LiteInv(feed, s) && Can(s, op)
    ensures HeldOk(feed, Do(feed, s, op, now))
  {
    if op.Dequeue? {
      assert RowOk(feed, s, op.id);
    } else if op.Enqueue? && s.held.Some? {
      assert RowOk(feed, s, s.held.value.taskId);
    }
  }

  lemma DoKeepsInv(feed: bool, s: Lite, op: LiteOp, now: Instant)
    requires LiteInv(feed, s) && Can(s, op) && Counted(op)
    ensures LiteInv(feed, Do(feed, s, op, now))
  {
    KeepsHeld(feed, s, op, now);
    forall id ensures RowOk(feed, Do(feed, s, op, now), id) {
      assert RowOk(feed, s, id);
      match op
      case Fail => FailKeepsRow(feed, s, now, id);
      case Enqueue(t) => EnqueueKeepsRow(feed, s, t, now, id);
      case _ => OtherKeepsRow(feed, s, op, now, id);
    }
  }

  lemma {:induction false} RunKeepsInv(feed: bool, states: seq<Lite>, ops: seq<LiteOp>, clock: nat -> Instant, n: nat)
    requires Runs(feed, states, ops, clock) && n <= |ops|
    ensures LiteInv(feed, states[n])
  {
    if n != 0 {
      RunKeepsInv(feed, states, ops, clock, n - 1);
      DoKeepsInv(feed, states[n - 1], ops[n - 1], clock(n - 1));
    }
  }

  // ---- As coded ----

  /**
   Every dequeue of every run hands out the payload with the retry count it was enqueued
   with, and a row is dead exactly when it has failed and was enqueued with no retry left.
   So a task enqueued with `retryCount < maxRetries` is never dead-lettered.
   */
  lemma RetriesNeverExhausted(states: seq<Lite>, ops: seq<LiteOp>, clock: nat -> Instant, n: nat)
    requires Runs(false, states, ops, clock) && n <= |ops|
    ensures var s := states[n];
      && (forall id :: id in s.rows ==> id in s.enqueued && s.rows[id].payload == s.enqueued[id])
      && (s.held.Some? ==> s.held.value.taskId in s.enqueued && s.held.value == s.enqueued[s.held.value.taskId])
      && (forall id :: id in s.rows ==>
            (s.rows[id].status == RowDead <==>
               Failures(s, id) > 0 && s.enqueued[id].retryCount >= s.enqueued[id].maxRetries))
  {
    RunKeepsInv(false, states, ops, clock, n);
    var s := states[n];
    forall id | id in s.rows
      ensures id in s.enqueued && s.rows[id].payload == s.enqueued[id]
      ensures s.rows[id].status == RowDead <==>
        Failures(s, id) > 0 && s.enqueued[id].retryCount >= s.enqueued[id].maxRetries
    {
      assert RowOk(false, s, id);
    }
    if s.held.Some? {
      assert RowOk(false, s, s.held.value.taskId);
    }
  }

  /** `x` is strictly the oldest row, still has a retry, and waits or is being tried. */
  predicate Blocking(s: Lite, x: Uuid) {
    && x in s.rows && x in s.enqueued
    && s.rows[x].payload.taskId == x && s.rows[x].payload.retryCount < s.rows[x].payload.maxRetries
    && (forall id :: id in s.rows && id != x ==> s.rows[x].createdAt < s.rows[id].createdAt)
    && if s.held.Some? then s.held.value == s.rows[x].payload && s.rows[x].status == RowProcessing else Eligible(s.rows, x)
  }

  /** Anything but a success; what is enqueued comes after `x`. */
  predicate NoRelief(s: Lite, op: LiteOp, now: Instant, x: Uuid)
    requires x in s.rows
  {
    !op.Succeed? && (op.Enqueue? ==> s.rows[x].createdAt < now)
  }

  lemma BlockingStep(s: Lite, op: LiteOp, now: Instant, x: Uuid)
    requires Blocking(s, x) && Can(s, op) && NoRelief(s, op, now, x)
    ensures Blocking(Do(false, s, op, now), x) && (op.Dequeue? ==> op.id == x)
    ensures Do(false, s, op, now).rows[x].createdAt == s.rows[x].createdAt
  {
  }

  /** Through steps `m` to `n` nothing succeeds, and every enqueue comes after `x` was created. */
  ghost predicate Relentless(states: seq<Lite>, ops: seq<LiteOp>, clock: nat -> Instant, m: nat, n: nat, x: Uuid)
    requires m <= n <= |ops| < |states| && x in states[m].rows
  {
    forall i :: m <= i < n ==> !ops[i].Succeed? && (ops[i].Enqueue? ==> states[m].rows[x].createdAt < clock(i))
  }

  /**
   From then on, whatever else is enqueued and however often the process restarts, every
   dequeue selects `x` again, and no other row is ever tried.
   */
  lemma {:induction false} OldestIsRetriedForever(
      states: seq<Lite>, ops: seq<LiteOp>, clock: nat -> Instant, m: nat, n: nat, x: Uuid)
    requires Runs(false, states, ops, clock) && m <= n <= |ops|
    requires Blocking(states[m], x) && Relentless(states, ops, clock, m, n, x)
    ensures Blocking(states[n], x) && states[n].rows[x].createdAt == states[m].rows[x].createdAt
    ensures forall i :: m <= i < n && ops[i].Dequeue? ==> ops[i].id == x
  {
    if m < n {
      OldestIsRetriedForever(states, ops, clock, m, n - 1, x);
      BlockingStep(states[n - 1], ops[n - 1], clock(n - 1), x);
    }
  }

  /** And it is never stuck: while nothing is held, one more attempt at `x` is possible, and may fail. */
  lemma OldestCanBeTried(s: Lite, x: Uuid, claimed: Instant, failed: Instant)
    requires Blocking(s, x) && s.held == None
    ensures Can(s, Dequeue(x))
    ensures var s' := Do(false, Do(false, s, Dequeue(x), claimed), Fail, failed);
      Blocking(s', x) && s'.held == None && Failures(s', x) == Failures(s, x) + 1
  {
  }

  lemma RunsSnoc(feed: bool, states: seq<Lite>, ops: seq<LiteOp>, clock: nat -> Instant, op: LiteOp)
    requires Runs(feed, states, ops, clock) && Can(states[|ops|], op) && Counted(op)
    ensures Runs(feed, states + [Do(feed, states[|ops|], op, clock(|ops|))], ops + [op], clock)
  {
  }

  /**
   The retries promised are never used up: for every task with a retry and every number `k`,
   beyond its budget too, there is a run in which it fails `k` times and then waits again.
   */
  lemma {:induction false} FailsForever(t: Task, clock: nat -> Instant, k: nat)
    returns (states: seq<Lite>, ops: seq<LiteOp>)
    requires 0 <= t.retryCount < t.maxRetries
    ensures Runs(false, states, ops, clock) && |ops| == 1 + 2 * k
    ensures var s := states[|ops|];
      && Blocking(s, t.taskId) && s.held == None && s.rows.Keys == {t.taskId}
      && Failures(s, t.taskId) == k && s.rows[t.taskId].status == RowPending
  {
    if k == 0 {
      states, ops := [START, Do(false, START, Enqueue(t), clock(0))], [Enqueue(t)];
    } else {
      states, ops := FailsForever(t, clock, k - 1);
      states, ops := OneMoreFailure(states, ops, clock, t.taskId);
    }
  }

  lemma OneMoreFailure(before: seq<Lite>, done: seq<LiteOp>, clock: nat -> Instant, x: Uuid)
    returns (states: seq<Lite>, ops: seq<LiteOp>)
    requires Runs(false, before, done, clock) && Blocking(before[|done|], x) && before[|done|].held == None
    ensures Runs(false, states, ops, clock) && |ops| == |done| + 2
    ensures var s, s' := before[|done|], states[|ops|];
      && Blocking(s', x) && s'.held == None && s'.rows.Keys == s.rows.Keys && Failures(s', x) == Failures(s, x) + 1
  {
    var n := |done|;
    OldestCanBeTried(before[n], x, clock(n), clock(n + 1));
    RunsSnoc(false, before, done, clock, Dequeue(x));
    states, ops := before + [Do(false, before[n], Dequeue(x), clock(n))], done + [Dequeue(x)];
    RunsSnoc(false, states, ops, clock, Fail);
    states, ops := states + [Do(false, states[n + 1], Fail, clock(n + 1))], ops + [Fail];
  }

  // ---- With the column fed back ----

  /** How often the first `n` steps dequeued `id`. */
  function Dequeues(ops: seq<LiteOp>, id: Uuid, n: nat): nat
    requires n <= |ops|
  {
    if n == 0 then 0 else Dequeues(ops, id, n - 1) + if ops[n - 1] == Dequeue(id) then 1 else 0
  }

  /** How often they restarted the process while it held `id`. */
  function Interrupted(states: seq<Lite>, ops: seq<LiteOp>, id: Uuid, n: nat): nat
    requires n <= |ops| < |states|
  {
    if n == 0 then 0
    else Interrupted(states, ops, id, n - 1) + if ops[n - 1].Restart? && Holds(states[n - 1], id) then 1 else 0
  }

  predicate Holds(s: Lite, id: Uuid) { s.held.Some? && s.held.value.taskId == id }

  /** While its row exists, each dequeue of an id failed, was interrupted or is going on. */
  predicate DequeuesOk(s: Lite, id: Uuid, dequeues: nat, interrupted: nat) {
    && (id !in s.enqueued ==> dequeues == 0 && interrupted == 0)
    && (id in s.enqueued ==> dequeues <= Budget(s.enqueued[id]) + 1 + interrupted)
    && (id in s.rows ==> dequeues == Failures(s, id) + interrupted + if Holds(s, id) then 1 else 0)
  }

  lemma DoCounts(s: Lite, op: LiteOp, now: Instant, id: Uuid, dequeues: nat, interrupted: nat)
    requires RowOk(true, s, id) && HeldOk(true, s) && Can(s, op) && DequeuesOk(s, id, dequeues, interrupted)
    requires op.Dequeue? ==> RowOk(true, s, op.id)
    ensures DequeuesOk(Do(true, s, op, now), id,
                       dequeues + if op == Dequeue(id) then 1 else 0,
                       interrupted + if op.Restart? && Holds(s, id) then 1 else 0)
  {
  }

  lemma {:induction false} RunCounts(states: seq<Lite>, ops: seq<LiteOp>, clock: nat -> Instant, n: nat, id: Uuid)
    requires Runs(true, states, ops, clock) && n <= |ops|
    ensures DequeuesOk(states[n], id, Dequeues(ops, id, n), Interrupted(states, ops, id, n))
  {
    if n > 0 {
      RunCounts(states, ops, clock, n - 1, id);
      RunKeepsInv(true, states, ops, clock, n - 1);
      assert RowOk(true, states[n - 1], id);
      assert ops[n - 1].Dequeue? ==> RowOk(true, states[n - 1], ops[n - 1].id);
      DoCounts(states[n - 1], ops[n - 1], clock(n - 1), id, Dequeues(ops, id, n - 1), Interrupted(states, ops, id, n - 1));
    }
  }

  predicate RestartFree(ops: seq<LiteOp>, n: nat)
    requires n <= |ops|
  {
    forall i :: 0 <= i < n ==> !ops[i].Restart?
  }

  lemma {:induction false} NotInterrupted(states: seq<Lite>, ops: seq<LiteOp>, id: Uuid, n: nat)
    requires n <= |ops| < |states| && RestartFree(ops, n)
    ensures Interrupted(states, ops, id, n) == 0
  {
    if n > 0 {
      NotInterrupted(states, ops, id, n - 1);
    }
  }

  /**
   Feeding `retry_count` back makes the retries count. A task is dequeued at most
   `Budget + 1` times, not counting the attempts that a restart cut short, whether it
   succeeds, dies or is still there; a row fails at most that often, and is dead exactly then.
   */
  lemma FeedbackRestoresBound(states: seq<Lite>, ops: seq<LiteOp>, clock: nat -> Instant, n: nat, id: Uuid)
    requires Runs(true, states, ops, clock) && n <= |ops| && id in states[n].enqueued
    ensures var s := states[n]; var t := s.enqueued[id];
      && Dequeues(ops, id, n) <= Budget(t) + 1 + Interrupted(states, ops, id, n)
      && (RestartFree(ops, n) ==> Dequeues(ops, id, n) <= Budget(t) + 1)
      && (id in s.rows ==>
            Failures(s, id) <= Budget(t) + 1 && (s.rows[id].status == RowDead <==> Failures(s, id) == Budget(t) + 1))
  {
    RunKeepsInv(true, states, ops, clock, n);
    assert RowOk(true, states[n], id);
    RunCounts(states, ops, clock, n, id);
    if RestartFree(ops, n) {
      NotInterrupted(states, ops, id, n);
    }
  }

  // ---- The number of dequeues of a run ----

  function DequeueCount(ops: seq<LiteOp>, n: nat): nat
    requires n <= |ops|
  {
    if n == 0 then 0 else DequeueCount(ops, n - 1) + if ops[n - 1].Dequeue? then 1 else 0
  }

  function Counts(states: seq<Lite>, ops: seq<LiteOp>, n: nat): map<Uuid, nat>
    requires n <= |ops| < |states|
  {
    map id | id in states[n].enqueued :: Dequeues(ops, id, n)
  }

  /** Every dequeue is of an enqueued id. */
  lemma {:induction false} DequeuesAreCounted(states: seq<Lite>, ops: seq<LiteOp>, clock: nat -> Instant, n: nat)
    requires Runs(true, states, ops, clock) && n <= |ops|
    ensures DequeueCount(ops, n) == Sum(states[n].enqueued.Keys, Counts(states, ops, n))
  {
    if n > 0 {
      DequeuesAreCounted(states, ops, clock, n - 1);
      var s, s', op := states[n - 1], states[n], ops[n - 1];
      var was, now := Counts(states, ops, n - 1), Counts(states, ops, n);
      assert s' == Do(true, s, op, clock(n - 1));
      if op.Dequeue? {
        RunKeepsInv(true, states, ops, clock, n - 1);
        assert RowOk(true, s, op.id);
        SumGrow(s.enqueued.Keys, was, now, op.id);
      } else if op.Enqueue? {
        var id := op.t.taskId;
        RunCounts(states, ops, clock, n - 1, id);
        assert s'.enqueued.Keys == s.enqueued.Keys + {id};
        SumSame(s.enqueued.Keys, was, now);
        SumOfNew(s.enqueued.Keys, now, id);
      } else {
        SumSame(s.enqueued.Keys, was, now);
      }
    }
  }

  /** What the enqueued tasks allow, together with the attempts that restarts cut short. */
  function Allowances(states: seq<Lite>, ops: seq<LiteOp>, n: nat): map<Uuid, nat>
    requires n <= |ops| < |states|
  {
    map id | id in states[n].enqueued :: Budget(states[n].enqueued[id]) + 1 + Interrupted(states, ops, id, n)
  }

  function Budgets(enqueued: map<Uuid, Task>): map<Uuid, nat> {
    map id | id in enqueued :: Budget(enqueued[id]) + 1
  }

  /** No run dequeues more often than that; without restarts, than the tasks' budgets and one for each add up to. */
  lemma DequeuesAreBounded(states: seq<Lite>, ops: seq<LiteOp>, clock: nat -> Instant, n: nat)
    requires Runs(true, states, ops, clock) && n <= |ops|
    ensures DequeueCount(ops, n) <= Sum(states[n].enqueued.Keys, Allowances(states, ops, n))
    ensures RestartFree(ops, n) ==>
      DequeueCount(ops, n) <= Sum(states[n].enqueued.Keys, Budgets(states[n].enqueued))
  {
    var ids := states[n].enqueued.Keys;
    DequeuesAreCounted(states, ops, clock, n);
    forall id | id in ids
      ensures Counter(Counts(states, ops, n), id) <= Counter(Allowances(states, ops, n), id)
      ensures RestartFree(ops, n) ==>
        Counter(Allowances(states, ops, n), id) == Counter(Budgets(states[n].enqueued), id)
    {
      RunCounts(states, ops, clock, n, id);
      if RestartFree(ops, n) {
        NotInterrupted(states, ops, id, n);
      }
    }
    SumMonotone(ids, Counts(states, ops, n), Allowances(states, ops, n));
    if RestartFree(ops, n) {
      SumSame(ids, Allowances(states, ops, n), Budgets(states[n].enqueued));
    }
  }
}
