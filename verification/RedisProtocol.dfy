/**
 The Redis task queue as a step system. Any number of processes run `enqueue_task`,
 `dequeue_task`, `ack_task`, `RedisQueue::nack` and `recover_stale_tasks`; one step is one
 Redis command. A process may crash before any command, and a command that fails with a
 Redis error ends the function in the same way. A run is any sequence of steps: `Next` is
 total, and a step that does not apply changes nothing.
 */
module RedisProtocol {
  import opened Commons
  import opened RedisStore
  import opened Sums

  type Pid = nat

  datatype Outcome = Success | Failed | TimedOut

  // The commands of each function, in order.
  datatype EnqAt = EnqData | EnqStatus | EnqCreated | EnqUpdated | EnqPush
  datatype AckAt = AckRem | AckStatus | AckUpdated
  datatype NackAt =
    | NackRem | NackError | NackUpdated          // both outcomes
    | NackData | NackStatus | NackPush           // retry
    | DeadPush | DeadStatus                      // dead letter
  datatype RecAt = RecRead | RecRem | RecStatus | RecUpdated | RecError | RecPush

  /** Where a process stands: the command it issues next and the locals it still needs. */
  datatype Pc =
    | Idle
    | Enq(at: EnqAt, task: Task)                      // enqueue_task
    | DeqRead(id: Uuid)                                // dequeue_task after its BRPOPLPUSH: HGET data
    | DeqOrphan(id: Uuid)                              //   LREM of an id without data
    | DeqMark(stamped: bool, id: Uuid, task: Task)     //   HSET status, then HSET updated_at
    | Working(task: Task)                              // the worker runs the pipeline
    | Ack(phase: AckAt, id: Uuid)                        // ack_task
    | NackRead(id: Uuid, retry: int, max: int, why: Outcome) // RedisQueue::nack: HGET data
    | Nack(act: NackAt, task: Task, why: Outcome)      // nack_task
    | MarkImage(task: Task)                            // handle_dead_letter
    | RecNext(rest: seq<Entry>, cutoff: Instant)       // recover_stale_tasks on the rest of its snapshot
    | Rec(stage: RecAt, id: Uuid, rest: seq<Entry>, cutoff: Instant)

  // ---- The next command of each function ----

  function EnqCommand(st: Store, at: EnqAt, t: Task, now: Instant): (Store, Pc) {
    match at
    case EnqData => (SetData(st, t.taskId, t), Enq(EnqStatus, t))
    case EnqStatus => (SetStatus(st, t.taskId, Pending), Enq(EnqCreated, t))
    case EnqCreated => (SetCreated(st, t.taskId, now), Enq(EnqUpdated, t))
    case EnqUpdated => (SetUpdated(st, t.taskId, now), Enq(EnqPush, t))
    case EnqPush => (PushPending(st, Ref(t.taskId)), Idle)
  }

  function AfterRead(data: Option<Data>, id: Uuid): Pc {
    match data
    case None => DeqOrphan(id)
    case Some(Corrupt(_)) => Idle
    case Some(Json(t)) => DeqMark(false, id, t)
  }

  function DeqMarkCommand(st: Store, stamped: bool, id: Uuid, t: Task, now: Instant): (Store, Pc) {
    if stamped then (SetUpdated(st, id, now), Working(t))
    else (SetStatus(st, id, Processing), DeqMark(true, id, t))
  }

  function AckCommand(st: Store, phase: AckAt, id: Uuid, now: Instant): (Store, Pc) {
    match phase
    case AckRem => (RemProcessing(st, Ref(id)), Ack(AckStatus, id))
    case AckStatus => (SetStatus(st, id, Done), Ack(AckUpdated, id))
    case AckUpdated => (SetUpdated(st, id, now), Idle)
  }

  function NackReadCommand(st: Store, id: Uuid, retry: int, max: int, why: Outcome): Pc {
    if Readable(st, id) then Nack(NackRem, TaskOf(st, id).(retryCount := retry, maxRetries := max), why) else Idle
  }

  function NackCommand(st: Store, act: NackAt, t: Task, why: Outcome, now: Instant): (Store, Pc) {
    match act
    case NackRem => (RemProcessing(st, Ref(t.taskId)), Nack(NackError, t, why))
    case NackError => (SetError(st, t.taskId, NACK_ERROR), Nack(NackUpdated, t, why))
    case NackUpdated =>
      (SetUpdated(st, t.taskId, now), Nack(if t.retryCount < t.maxRetries then NackData else DeadPush, t, why))
    case NackData => (SetData(st, t.taskId, t.(retryCount := t.retryCount + 1)), Nack(NackStatus, t, why))
    case NackStatus => (SetStatus(st, t.taskId, Pending), Nack(NackPush, t, why))
    case NackPush => (PushPending(st, Ref(t.taskId)), Idle)
    case DeadPush => (PushDead(st, Ref(t.taskId)), Nack(DeadStatus, t, why))
    case DeadStatus => (SetStatus(st, t.taskId, Dead), if why == Failed then MarkImage(t) else Idle)
  }

  function RecNextCommand(st: Store, rest: seq<Entry>, cutoff: Instant): Pc {
    if rest == [] then Idle
    else if rest[0].Ref? && Stale(st, rest[0].id, cutoff) then Rec(RecRead, rest[0].id, rest[1..], cutoff)
    else RecNext(rest[1..], cutoff)
  }

  function RecCommand(st: Store, stage: RecAt, id: Uuid, rest: seq<Entry>, cutoff: Instant, now: Instant): (Store, Pc) {
    match stage
    case RecRead => (st, if Readable(st, id) then Rec(RecRem, id, rest, cutoff) else RecNext(rest, cutoff))
    case RecRem => (RemProcessing(st, Ref(id)), Rec(RecStatus, id, rest, cutoff))
    case RecStatus => (SetStatus(st, id, Pending), Rec(RecUpdated, id, rest, cutoff))
    case RecUpdated => (SetUpdated(st, id, now), Rec(RecError, id, rest, cutoff))
    case RecError => (SetError(st, id, RECOVERED), Rec(RecPush, id, rest, cutoff))
    case RecPush => (PushPending(st, Ref(id)), RecNext(rest, cutoff))
  }

  function Command(st: Store, pc: Pc, now: Instant): (Store, Pc) {
    match pc
    case Idle => (st, pc)
    case Working(_) => (st, pc)
    case Enq(at, t) => EnqCommand(st, at, t, now)
    case DeqRead(id) => (st, AfterRead(RecordOf(st, id).data, id))
    case DeqOrphan(id) => (RemProcessing(st, Ref(id)), Idle)
    case DeqMark(stamped, id, t) => DeqMarkCommand(st, stamped, id, t, now)
    case Ack(phase, id) => AckCommand(st, phase, id, now)
    case NackRead(id, retry, max, why) => (st, NackReadCommand(st, id, retry, max, why))
    case Nack(act, t, why) => NackCommand(st, act, t, why, now)
    case MarkImage(_) => (st, Idle)
    case RecNext(rest, cutoff) => (st, RecNextCommand(st, rest, cutoff))
    case Rec(stage, id, rest, cutoff) => RecCommand(st, stage, id, rest, cutoff, now)
  }

  predicate Recovering(pc: Pc) { pc.RecNext? || pc.Rec? }

  // ---- The system ----

  /**
   What has happened so far: ids whose enqueueing LPUSH was done, ids some worker processed
   successfully, ids whose carrier crashed between LREM and LPUSH, ids reported as
   MissingData, payloads whose enqueueing began, how often each id was dequeued and failed,
   what ended each dead-lettered id, and the images marked as failed in the database.
   */
  datatype Log = Log(
    enqueued: set<Uuid>, finished: set<Uuid>, dropped: set<Uuid>, missing: set<Uuid>,
    started: map<Uuid, Task>, dequeues: map<Uuid, nat>, failures: map<Uuid, nat>,
    deadBy: map<Uuid, Outcome>, failedImages: set<Uuid>)

  /** The shared store, the processes and the log. */
  datatype State = State(store: Store, procs: map<Pid, Pc>, log: Log)

  const INIT := State(EMPTY, map[], Log({}, {}, {}, {}, map[], map[], map[], map[], {}))

  datatype Event =
    | Enqueue(task: Task)
    | Dequeue
    | Recover(timeout: nat)
    | Finish(outcome: Outcome)
    | Proceed
    | Crash

  datatype Step = Step(p: Pid, event: Event, now: Instant)

  function PcOf(s: State, p: Pid): Pc {
    if p in s.procs then s.procs[p] else Idle
  }

  /** The id a process carries between its LREM and its LPUSH. */
  function Carried(pc: Pc): Option<Uuid> {
    if pc.Nack? && pc.act != NackRem && pc.act != DeadStatus then Some(pc.task.taskId)
    else if pc.Rec? && pc.stage != RecRead && pc.stage != RecRem then Some(pc.id)
    else None
  }

  function LogCommand(log: Log, pc: Pc): Log {
    if pc.Enq? && pc.at == EnqPush then log.(enqueued := log.enqueued + {pc.task.taskId})
    else if pc.DeqOrphan? then log.(missing := log.missing + {pc.id})
    else if pc.Nack? && pc.act == DeadPush then log.(deadBy := log.deadBy[pc.task.taskId := pc.why])
    else if pc.MarkImage? then log.(failedImages := log.failedImages + {pc.task.imageId})
    else log
  }

  function AfterCommand(s: State, p: Pid, now: Instant): State {
    var pc := PcOf(s, p);
    var (st, pc') := Command(s.store, pc, now);
    State(st, s.procs[p := pc'], LogCommand(s.log, pc))
  }

  function AfterPop(s: State, p: Pid): State {
    if s.store.pending == [] then s
    else
      var e := s.store.pending[|s.store.pending| - 1];
      match e
      case Junk(_) => s.(store := PopPush(s.store))
      case Ref(id) =>
        State(PopPush(s.store), s.procs[p := DeqRead(id)],
              s.log.(dequeues := s.log.dequeues[id := Counter(s.log.dequeues, id) + 1]))
  }

  function AfterCrash(s: State, p: Pid): State {
    var lost := Carried(PcOf(s, p));
    State(s.store, s.procs[p := Idle],
          if lost.Some? then s.log.(dropped := s.log.dropped + {lost.value}) else s.log)
  }

  function AfterFinish(s: State, p: Pid, o: Outcome): State
    requires PcOf(s, p).Working?
  {
    var t := PcOf(s, p).task;
    if o.Success? then
      State(s.store, s.procs[p := Ack(AckRem, t.taskId)], s.log.(finished := s.log.finished + {t.taskId}))
    else
      State(s.store, s.procs[p := NackRead(t.taskId, t.retryCount, t.maxRetries, o)],
            s.log.(failures := s.log.failures[t.taskId := Counter(s.log.failures, t.taskId) + 1]))
  }

  function AfterEnqueue(s: State, p: Pid, t: Task): State {
    State(s.store, s.procs[p := Enq(EnqData, t)], s.log.(started := s.log.started[t.taskId := t]))
  }

  /** LRANGE of the processing list, and the cutoff. */
  function AfterRecover(s: State, p: Pid, cutoff: Instant): State {
    s.(procs := s.procs[p := RecNext(s.store.processing, cutoff)])
  }

  /** A step of an event that does not fit the process changes nothing. */
  predicate Applies(s: State, step: Step) {
    var pc := PcOf(s, step.p);
    match step.event
    case Crash => true
    case Proceed => true
    case Finish(_) => pc.Working?
    case _ => pc.Idle?
  }

  function Next(s: State, step: Step): State {
    if !Applies(s, step) then s
    else
      match step.event
      case Crash => AfterCrash(s, step.p)
      case Proceed => AfterCommand(s, step.p, step.now)
      case Finish(o) => AfterFinish(s, step.p, o)
      case Enqueue(t) => AfterEnqueue(s, step.p, t)
      case Dequeue => AfterPop(s, step.p)
      case Recover(timeout) => AfterRecover(s, step.p, step.now - timeout)
  }

  function Run(s: State, steps: seq<Step>): State
    decreases |steps|
  {
    if steps == [] then s else Next(Run(s, steps[..|steps| - 1]), steps[|steps| - 1])
  }
}
