/**
 `RedisQueue` as an object: the Redis keys are its fields, every method issues the commands
 of its function in `queue.rs` in order, and each is proved against the function of the
 same name on stores.
 */
module RedisBackend {
  import opened Commons
  import opened RedisStore
  import Spec = RedisQueue
  import Abs = AbstractQueue

  class RedisQueue {
    var pending: seq<Entry>
    var processing: seq<Entry>
    var dead: seq<Entry>
    var hash: map<Uuid, Record>
    ghost var finished: set<Uuid>  // the ids acknowledged so far

    function Keys(): Store
      reads this
    {
      Store(pending, processing, dead, hash)
    }

    ghost predicate Valid()
      reads this
    {
      Spec.Sound(Keys())
    }

    ghost function View(): Abs.Queue
      reads this
    {
      Spec.View(Keys(), finished)
    }

    constructor ()
      ensures Valid() && Keys() == EMPTY && finished == {}
    {
      pending, processing, dead, hash, finished := [], [], [], map[], {};
    }

    // ---- Commands ----

    method LRemProcessing(e: Entry)
      modifies this`processing
      ensures Keys() == RemProcessing(old(Keys()), e)
    {
      processing := LRem(processing, e);
    }

    method LPushPending(e: Entry)
      modifies this`pending
      ensures Keys() == PushPending(old(Keys()), e)
    {
      pending := [e] + pending;
    }

    method LPushDead(e: Entry)
      modifies this`dead
      ensures Keys() == PushDead(old(Keys()), e)
    {
      dead := [e] + dead;
    }

    method BRPopLPush() returns (e: Option<Entry>)
      modifies this`pending, this`processing
      ensures old(pending) == [] ==> e == None && Keys() == old(Keys())
      ensures old(pending) != [] ==> e == Some(old(pending)[|old(pending)| - 1]) && Keys() == PopPush(old(Keys()))
    {
      if pending == [] {
        return None;
      }
      var last := pending[|pending| - 1];
      pending, processing := pending[..|pending| - 1], [last] + processing;
      return Some(last);
    }

    method HSetData(id: Uuid, t: Task)
      modifies this`hash
      ensures Keys() == SetData(old(Keys()), id, t)
    {
      var r := RecordOf(Keys(), id);
      hash := hash[id := r.(data := Some(Json(t)))];
    }

    method HSetStatus(id: Uuid, status: Status)
      modifies this`hash
      ensures Keys() == SetStatus(old(Keys()), id, status)
    {
      var r := RecordOf(Keys(), id);
      hash := hash[id := r.(status := Some(status))];
    }

    method HSetCreated(id: Uuid, now: Instant)
      modifies this`hash
      ensures Keys() == SetCreated(old(Keys()), id, now)
    {
      var r := RecordOf(Keys(), id);
      hash := hash[id := r.(createdAt := Some(At(now)))];
    }

    method HSetUpdated(id: Uuid, now: Instant)
      modifies this`hash
      ensures Keys() == SetUpdated(old(Keys()), id, now)
    {
      var r := RecordOf(Keys(), id);
      hash := hash[id := r.(updatedAt := Some(At(now)))];
    }

    method HSetError(id: Uuid, error: string)
      modifies this`hash
      ensures Keys() == SetError(old(Keys()), id, error)
    {
      var r := RecordOf(Keys(), id);
      hash := hash[id := r.(error := Some(error))];
    }

    // ---- Operations ----

    method Enqueue(t: Task, now: Instant)
      modifies this
      ensures Keys() == Spec.Enqueue(old(Keys()), t, now) && finished == old(finished)
      ensures old(Valid() && Abs.Fresh(View(), t.taskId)) ==>
        Valid() && Abs.Does(old(View()), Abs.Enqueued(t.taskId), View())
    {
      ghost var before := Keys();
      HSetData(t.taskId, t);
      HSetStatus(t.taskId, Pending);
      HSetCreated(t.taskId, now);
      HSetUpdated(t.taskId, now);
      LPushPending(Ref(t.taskId));
      if Spec.Sound(before) && Abs.Fresh(Spec.View(before, finished), t.taskId) {
        Spec.EnqueueRefines(before, finished, t, now);
      }
    }

    /** `dequeue_task`, without the waiting. */
    method DequeueTask(now: Instant) returns (r: Result<Option<Task>, Spec.QueueError>)
      modifies this
      ensures (Keys(), r) == Spec.Dequeue(old(Keys()), now) && finished == old(finished)
    {
      var popped := BRPopLPush();
      if popped.None? {
        return Ok(None);
      }
      var e := popped.value;
      if e.Junk? {
        return Err(Spec.InvalidUuid(e.text));
      }
      var data := RecordOf(Keys(), e.id).data;
      match data {
        case None =>
          LRemProcessing(e);
          return Err(Spec.MissingData(e.id));
        case Some(Corrupt(_)) =>
          return Err(Spec.Serialize);
        case Some(Json(t)) =>
          HSetStatus(e.id, Processing);
          HSetUpdated(e.id, now);
          return Ok(Some(t));
      }
    }

    method Dequeue(now: Instant) returns (r: Result<Option<Task>, Spec.QueueError>)
      modifies this
      ensures (Keys(), r) == Spec.Dequeue(old(Keys()), now) && finished == old(finished)
      ensures old(Valid()) ==>
        && Valid() && r.Ok?
        && Abs.Does(old(View()), Abs.Dequeued(if r.value.Some? then Some(r.value.value.taskId) else None), View())
    {
      ghost var before := Keys();
      r := DequeueTask(now);
      if Spec.Sound(before) {
        Spec.DequeueRefines(before, finished, now);
      }
    }

    method Ack(id: Uuid, now: Instant)
      modifies this
      ensures Keys() == Spec.Ack(old(Keys()), id, now) && finished == old(finished) + {id}
      ensures old(Valid() && id in View().processing) ==> Valid() && Abs.Does(old(View()), Abs.Acked(id), View())
    {
      ghost var before := Keys();
      LRemProcessing(Ref(id));
      HSetStatus(id, Done);
      HSetUpdated(id, now);
      if Spec.Sound(before) && id in Spec.IdsIn(before.processing) {
        Spec.AckRefines(before, finished, id, now);
      }
      finished := finished + {id};
    }

    method Nack(id: Uuid, retry: int, max: int, now: Instant)
      returns (r: Result<Abs.NackAction, Spec.QueueError>)
      modifies this
      ensures (Keys(), r) == Spec.Nack(old(Keys()), id, retry, max, now) && finished == old(finished)
      ensures old(Valid() && id in View().processing) ==>
        Valid() && r.Ok? && Abs.Does(old(View()), Abs.Nacked(id, retry, max, r.value), View())
    {
      ghost var before := Keys();
      if Spec.Sound(before) && id in Spec.IdsIn(before.processing) {
        Spec.NackRefines(before, finished, id, retry, max, now);
      }
      var data := RecordOf(Keys(), id).data;
      if data.None? {
        return Err(Spec.MissingData(id));
      }
      if data.value.Corrupt? {
        return Err(Spec.Serialize);
      }
      r := NackTask(data.value.task.(retryCount := retry, maxRetries := max), now);
    }

    /** `nack_task` */
    method NackTask(t: Task, now: Instant) returns (r: Result<Abs.NackAction, Spec.QueueError>)
      modifies this
      ensures var started := Spec.NackStart(old(Keys()), t.taskId, now);
        && Keys() == (if t.retryCount < t.maxRetries then Spec.NackRetry(started, t) else Spec.NackDead(started, t.taskId))
        && r == Ok(if t.retryCount < t.maxRetries then Abs.Retry else Abs.DeadLetter)
        && finished == old(finished)
    {
      LRemProcessing(Ref(t.taskId));
      HSetError(t.taskId, NACK_ERROR);
      HSetUpdated(t.taskId, now);
      if t.retryCount < t.maxRetries {
        HSetData(t.taskId, t.(retryCount := t.retryCount + 1));
        HSetStatus(t.taskId, Pending);
        LPushPending(Ref(t.taskId));
        return Ok(Abs.Retry);
      } else {
        LPushDead(Ref(t.taskId));
        HSetStatus(t.taskId, Dead);
        return Ok(Abs.DeadLetter);
      }
    }

    /** The loop over the LRANGE snapshot; `clock(k)` is the time when it reaches entry `k`. */
    method RecoverSnapshot(cutoff: Instant, clock: nat -> Instant) returns (recovered: seq<Task>)
      modifies this
      ensures (Keys(), recovered) == Spec.Recover(old(Keys()), cutoff, clock) && finished == old(finished)
    {
      ghost var before := Keys();
      var taskIds := processing;
      recovered := [];
      var i := 0;
      assert taskIds[0..] == taskIds;
      assert recovered + Spec.RecoverFrom(before, taskIds, cutoff, clock, 0).1
          == Spec.RecoverFrom(before, taskIds, cutoff, clock, 0).1;
      while i < |taskIds|
        invariant 0 <= i <= |taskIds| && finished == old(finished)
        invariant var (end, rest) := Spec.RecoverFrom(Keys(), taskIds[i..], cutoff, clock, i);
          Spec.RecoverFrom(before, taskIds, cutoff, clock, 0) == (end, recovered + rest)
      {
        var e := taskIds[i];
        Unfold(Keys(), taskIds, cutoff, clock, i);
        i := i + 1;
        if e.Junk? {
          continue;
        }
        if !Stale(Keys(), e.id, cutoff) {
          continue;
        }
        if !Readable(Keys(), e.id) {
          continue;
        }
        var task := TaskOf(Keys(), e.id);
        RecoverSingle(e.id, clock(i - 1));
        ghost var rest := Spec.RecoverFrom(Keys(), taskIds[i..], cutoff, clock, i).1;
        assert recovered + ([task] + rest) == recovered + [task] + rest;
        recovered := recovered + [task];
      }
      assert recovered + [] == recovered;
    }

    /** `recover_stale_tasks`, begun at time `now`. */
    method RecoverStale(timeout: nat, now: Instant, clock: nat -> Instant) returns (recovered: seq<Task>)
      modifies this
      ensures (Keys(), recovered) == Spec.Recover(old(Keys()), now - timeout, clock) && finished == old(finished)
      ensures old(Valid()) && (forall n :: clock(n) >= now - timeout) ==>
        Valid() && Abs.Does(old(View()), Abs.Reclaimed(old(Spec.RecoveredIds(Keys(), now - timeout))), View())
    {
      ghost var before := Keys();
      var cutoff := now - timeout;
      recovered := RecoverSnapshot(cutoff, clock);
      if Spec.Sound(before) && forall n :: clock(n) >= cutoff {
        Spec.RecoverRefines(before, finished, cutoff, clock);
      }
    }

    /** The writing half of `recover_single_task` */
    method RecoverSingle(id: Uuid, now: Instant)
      modifies this
      ensures Keys() == Spec.RecoverOne(old(Keys()), id, now) && finished == old(finished)
    {
      LRemProcessing(Ref(id));
      HSetStatus(id, Pending);
      HSetUpdated(id, now);
      HSetError(id, RECOVERED);
      LPushPending(Ref(id));
    }
  }

  /** What one round of the recovery loop does. */
  lemma Unfold(st: Store, ids: seq<Entry>, cutoff: Instant, clock: nat -> Instant, i: nat)
    requires i < |ids|
    ensures var whole := Spec.RecoverFrom(st, ids[i..], cutoff, clock, i);
      if Spec.Recoverable(st, ids[i], cutoff) then
        var (end, rest) := Spec.RecoverFrom(Spec.RecoverOne(st, ids[i].id, clock(i)), ids[i + 1..], cutoff, clock, i + 1);
        whole == (end, [TaskOf(st, ids[i].id)] + rest)
      else whole == Spec.RecoverFrom(st, ids[i + 1..], cutoff, clock, i + 1)
  {
    assert ids[i..][0] == ids[i] && ids[i..][1..] == ids[i + 1..];
  }
}
