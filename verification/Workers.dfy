/**
 One round of each worker: dequeue a task, run the pipeline on it, and answer the queue.
 What the pipeline made of the task is a parameter.
 */
module Workers {
  import opened Commons
  import opened RedisStore
  import RedisProtocol
  import Redis = RedisBackend
  import Spec = RedisQueue
  import Sqlite = SqliteQueue
  import Lite = LiteWorker
  import Abs = AbstractQueue

  type Outcome = RedisProtocol.Outcome

  /** A row of `upload_tasks`. */
  datatype TaskFailure = TaskFailure(image: Uuid, error: string, retry: int, max: int)

  /** Which of the two writes of a dead letter the database performs; their errors are ignored. */
  datatype Writes = Writes(insert: bool, mark: bool)

  /** The tables the Redis worker writes when a task is given up. */
  class WorkerDb {
    var failedImages: set<Uuid>
    var failures: seq<TaskFailure>

    constructor ()
      ensures failedImages == {} && failures == []
    {
      failedImages, failures := {}, [];
    }

    /** `handle_dead_letter`: the two writes do not depend on each other. */
    method HandleDeadLetter(image: Uuid, retry: int, max: int, error: string, writes: Writes)
      modifies this
      ensures failedImages == if writes.mark then old(failedImages) + {image} else old(failedImages)
      ensures failures == if writes.insert then old(failures) + [TaskFailure(image, error, retry, max)] else old(failures)
    {
      if writes.insert {
        failures := failures + [TaskFailure(image, error, retry, max)];
      }
      if writes.mark {
        failedImages := failedImages + {image};
      }
    }
  }

  // ---- The Redis worker ----

  predicate Exhausted(t: Task) { t.retryCount >= t.maxRetries }

  /** Where a round that took `t` leaves the queue: the task is not held any more. */
  ghost function Settled(q: Abs.Queue, t: Task, outcome: Outcome): Abs.Queue {
    var id := t.taskId;
    if outcome.Success? then q.(pending := q.pending - {id}, finished := q.finished + {id})
    else if Exhausted(t) then q.(pending := q.pending - {id}, dead := q.dead + {id})
    else q
  }

  lemma PendingIsNotHeld(st: Store, finished: set<Uuid>, id: Uuid)
    requires Spec.Sound(st) && id in Spec.View(st, finished).pending
    ensures id !in Spec.View(st, finished).processing
  {
    Spec.InIdsIn(st.pending, id);
    Spec.InIdsIn(st.processing, id);
    assert Copies(st, Ref(id)) <= 1;
  }

  /** `nack_failed_task`: the database learns of the failure only when the retries are used up. */
  method NackFailedTask(rq: Redis.RedisQueue, db: WorkerDb, t: Task, error: string, writes: Writes, now: Instant)
    requires rq.Valid() && t.taskId in rq.View().processing
    modifies rq, db
    ensures rq.Valid()
    ensures Abs.Does(old(rq.View()),
                     Abs.Nacked(t.taskId, t.retryCount, t.maxRetries, if Exhausted(t) then Abs.DeadLetter else Abs.Retry),
                     rq.View())
    ensures db.failedImages ==
      if Exhausted(t) && writes.mark then old(db.failedImages) + {t.imageId} else old(db.failedImages)
    ensures db.failures ==
      if Exhausted(t) && writes.insert then
        old(db.failures) + [TaskFailure(t.imageId, error, t.retryCount + 1, t.maxRetries)]
      else old(db.failures)
  {
    var action := rq.Nack(t.taskId, t.retryCount, t.maxRetries, now);
    if action.Ok? && action.value.DeadLetter? {
      db.HandleDeadLetter(t.imageId, t.retryCount + 1, t.maxRetries, error, writes);
    }
  }

  /** `handle_task_result`: a timeout is nacked too, but what the nack did is thrown away. */
  method HandleTaskResult(rq: Redis.RedisQueue, db: WorkerDb, t: Task, outcome: Outcome, error: string, writes: Writes, now: Instant)
    requires rq.Valid() && t.taskId in rq.View().processing
    modifies rq, db
    ensures rq.Valid()
    ensures Abs.Does(old(rq.View()),
                     if outcome.Success? then Abs.Acked(t.taskId)
                     else Abs.Nacked(t.taskId, t.retryCount, t.maxRetries, if Exhausted(t) then Abs.DeadLetter else Abs.Retry),
                     rq.View())
    ensures db.failedImages ==
      if outcome.Failed? && Exhausted(t) && writes.mark then old(db.failedImages) + {t.imageId} else old(db.failedImages)
    ensures db.failures ==
      if outcome.Failed? && Exhausted(t) && writes.insert then
        old(db.failures) + [TaskFailure(t.imageId, error, t.retryCount + 1, t.maxRetries)]
      else old(db.failures)
  {
    match outcome {
      case Success => rq.Ack(t.taskId, now);
      case Failed => NackFailedTask(rq, db, t, error, writes, now);
      case TimedOut => var _ := rq.Nack(t.taskId, t.retryCount, t.maxRetries, now);
    }
  }

  /**
   One round of `worker_loop`. It holds nothing afterwards; the task it took is finished,
   dead or pending again; and its image is marked as failed only if the pipeline itself
   failed it for the last time. A task that dies of a timeout leaves its image unmarked.
   */
  method ServeOne(
      rq: Redis.RedisQueue, db: WorkerDb, outcome: Outcome, error: string, writes: Writes, taken: Instant, answered: Instant)
    returns (served: Option<Task>)
    requires rq.Valid()
    modifies rq, db
    ensures rq.Valid()
    ensures served.None? ==>
      old(rq.View()).pending == {} && rq.View() == old(rq.View())
      && db.failedImages == old(db.failedImages) && db.failures == old(db.failures)
    ensures served.Some? ==>
      var t := served.value;
      && t.taskId in old(rq.View()).pending
      && rq.View() == Settled(old(rq.View()), t, outcome)
      && db.failedImages ==
           (if outcome.Failed? && Exhausted(t) && writes.mark then old(db.failedImages) + {t.imageId} else old(db.failedImages))
      && db.failures ==
           (if outcome.Failed? && Exhausted(t) && writes.insert then
              old(db.failures) + [TaskFailure(t.imageId, error, t.retryCount + 1, t.maxRetries)]
            else old(db.failures))
  {
    ghost var before := rq.View();
    ghost var st, fin := rq.Keys(), rq.finished;
    var r := rq.Dequeue(taken);
    served := r.value;
    if served.Some? {
      var t := served.value;
      PendingIsNotHeld(st, fin, t.taskId);
      HandleTaskResult(rq, db, t, outcome, error, writes, answered);
      SettledIs(before, t, outcome, rq.View());
    }
  }

  lemma SettledIs(q: Abs.Queue, t: Task, outcome: Outcome, q': Abs.Queue)
    requires t.taskId in q.pending && t.taskId !in q.processing
    requires Abs.Does(q.(pending := q.pending - {t.taskId}, processing := q.processing + {t.taskId}),
                      if outcome.Success? then Abs.Acked(t.taskId)
                      else Abs.Nacked(t.taskId, t.retryCount, t.maxRetries, if Exhausted(t) then Abs.DeadLetter else Abs.Retry),
                      q')
    ensures q' == Settled(q, t, outcome)
  {
    var id := t.taskId;
    assert q.processing + {id} - {id} == q.processing;
    assert q.pending - {id} + {id} == q.pending;
  }

  // ---- The worker of lite mode ----

  /** `handle_task`: ack or nack with the numbers of the payload, not of the row. */
  method HandleTask(queue: Sqlite.SqliteQueue, t: Task, success: bool, now: Instant)
    requires queue.Valid()
    modifies queue
    ensures queue.Valid()
    ensures forall s: Lite.Lite ::
      s.rows == old(queue.rows) && s.held == Some(t) ==>
        queue.rows == Lite.Do(false, s, if success then Lite.Succeed else Lite.Fail, now).rows
    ensures t.taskId in old(queue.Queue()).processing ==>
      Abs.Does(old(queue.Queue()),
               if success then Abs.Acked(t.taskId)
               else Abs.Nacked(t.taskId, t.retryCount, t.maxRetries, if Exhausted(t) then Abs.DeadLetter else Abs.Retry),
               queue.Queue())
  {
    if success {
      queue.Ack(t.taskId);
    } else {
      var _ := queue.NackTask(t.taskId, t.retryCount, t.maxRetries, now);
    }
  }
}
