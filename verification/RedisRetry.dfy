/**
 Retry accounting, in every orderly run without recoveries, with any number of workers,
 any outcomes and crashes anywhere. A task enqueued with `retryCount = r` and
 `maxRetries = m` is dequeued at most max(0, m - r) + 1 times, and is dead-lettered after
 exactly that many failures. Summed over the tasks this bounds the number of dequeues of a
 run, so workers that drain the queue terminate.
 */
module RedisRetry {
  import opened Commons
  import opened Sums
  import opened RedisStore
  import opened RedisProtocol
  import opened RedisNoLoss
  import opened RedisExactlyOnce

  function Dequeued(s: State, id: Uuid): nat { Counter(s.log.dequeues, id) }

  function Failures(s: State, id: Uuid): nat { Counter(s.log.failures, id) }

  /** The retries already spent: what nacks added to the stored retry count. */
  function Spent(s: State, id: Uuid): int
    requires id in s.log.started && HasData(s.store, id)
  {
    TaskOf(s.store, id).retryCount - s.log.started[id].retryCount
  }

  /** The account of an enqueued id. */
  predicate IdOk(s: State, id: Uuid) {
    if id !in s.log.enqueued then
      Dequeued(s, id) == 0 && Failures(s, id) == 0
    else
      && id in s.log.started && HasData(s.store, id)
      && TaskOf(s.store, id).maxRetries == s.log.started[id].maxRetries
      && 0 <= Spent(s, id) <= Budget(s.log.started[id])
      && Spent(s, id) <= Failures(s, id) <= Dequeued(s, id) <= Spent(s, id) + 1
      && (Ref(id) in s.store.pending ==> Dequeued(s, id) == Spent(s, id))
      && (Ref(id) in s.store.dead ==> Failures(s, id) == Spent(s, id) + 1 && Spent(s, id) == Budget(s.log.started[id]))
  }

  /** A worker holds the stored payload, in an attempt that has not failed. */
  predicate Trying(s: State, id: Uuid) {
    id in s.log.started && HasData(s.store, id) && Dequeued(s, id) == Spent(s, id) + 1 && Failures(s, id) == Spent(s, id)
  }

  /** The attempt failed, and the retry count is not yet raised. */
  predicate Lost(s: State, id: Uuid) {
    id in s.log.started && HasData(s.store, id) && Failures(s, id) == Spent(s, id) + 1
  }

  predicate NackOk(s: State, act: NackAt, t: Task) {
    match act
    case NackRem => Lost(s, t.taskId) && TaskOf(s.store, t.taskId) == t
    case NackError => Lost(s, t.taskId) && TaskOf(s.store, t.taskId) == t
    case NackUpdated => Lost(s, t.taskId) && TaskOf(s.store, t.taskId) == t
    case NackData => Lost(s, t.taskId) && TaskOf(s.store, t.taskId) == t && t.retryCount < t.maxRetries
    case NackStatus => Spendable(s, t.taskId)
    case NackPush => Spendable(s, t.taskId)
    case DeadPush => Lost(s, t.taskId) && TaskOf(s.store, t.taskId) == t && t.retryCount >= t.maxRetries
    case DeadStatus => true
  }

  /** The retry count is raised, so the task may be dequeued again. */
  predicate Spendable(s: State, id: Uuid) {
    id in s.log.started && HasData(s.store, id) && Dequeued(s, id) == Spent(s, id)
  }

  predicate PcOk(s: State, pc: Pc) {
    match pc
    case Enq(at, t) =>
      && t.taskId in s.log.started && s.log.started[t.taskId] == t
      && (at != EnqData ==> HasData(s.store, t.taskId) && TaskOf(s.store, t.taskId) == t)
    case DeqRead(id) => Trying(s, id)
    case DeqMark(_, id, t) => Trying(s, id) && TaskOf(s.store, id) == t
    case Working(t) => Trying(s, t.taskId) && TaskOf(s.store, t.taskId) == t
    case NackRead(id, retry, max, _) =>
      Lost(s, id) && retry == TaskOf(s.store, id).retryCount && max == TaskOf(s.store, id).maxRetries
    case Nack(act, t, _) => NackOk(s, act, t)
    case RecNext(_, _) => false
    case Rec(_, _, _, _) => false
    case _ => true
  }

  ghost predicate RetryInv(s: State) {
    && (forall id :: IdOk(s, id))
    && (forall p :: p in s.procs ==> PcOk(s, s.procs[p]))
  }

  /** Everything the account of `id` depends on, apart from the lists. */
  predicate SameAccount(s: State, s': State, id: Uuid) {
    && RecordOf(s'.store, id).data == RecordOf(s.store, id).data
    && Dequeued(s', id) == Dequeued(s, id) && Failures(s', id) == Failures(s, id)
    && (id in s.log.started <==> id in s'.log.started)
    && (id in s.log.started ==> s'.log.started[id] == s.log.started[id])
  }

  lemma SameAccountKeepsPc(s: State, s': State, pc: Pc)
    requires PcOk(s, pc)
    requires !HoldOf(pc).Free? ==> SameAccount(s, s', HoldOf(pc).id)
    ensures PcOk(s', pc)
  {
  }

  lemma SameAccountKeepsId(s: State, s': State, id: Uuid)
    requires IdOk(s, id) && SameAccount(s, s', id)
    requires id in s'.log.enqueued <==> id in s.log.enqueued
    requires Ref(id) in s'.store.pending ==> Ref(id) in s.store.pending
    requires Ref(id) in s'.store.dead ==> Ref(id) in s.store.dead
    ensures IdOk(s', id)
  {
  }

  /** The id whose account and lists the next command may change. */
  function Subject(pc: Pc): Option<Uuid> {
    if HoldOf(pc).Free? then None else Some(HoldOf(pc).id)
  }

  lemma CommandFrame(s: State, p: Pid, now: Instant, id: Uuid)
    requires PcKnown(s.store, PcOf(s, p)) && !Recovering(PcOf(s, p)) && Subject(PcOf(s, p)) != Some(id)
    ensures var s' := AfterCommand(s, p, now);
      && SameAccount(s, s', id)
      && (id in s'.log.enqueued <==> id in s.log.enqueued)
      && (Ref(id) in s'.store.pending ==> Ref(id) in s.store.pending)
      && (Ref(id) in s'.store.dead ==> Ref(id) in s.store.dead)
  {
  }

  // ---- What a command does to the process and to the account of its own id ----

  predicate SubjectOk(s: State, pc: Pc, now: Instant, id: Uuid) {
    var (st', pc') := Command(s.store, pc, now);
    var s' := State(st', s.procs, LogCommand(s.log, pc));
    PcOk(s', pc') && IdOk(s', id)
  }

  lemma EnqSubject(s: State, at: EnqAt, t: Task, now: Instant)
    requires PcOk(s, Enq(at, t)) && IdOk(s, t.taskId) && HoldOk(s.store, s.log, Enqueuing(t.taskId))
    ensures SubjectOk(s, Enq(at, t), now, t.taskId)
  {
  }

  lemma DeqSubject(s: State, pc: Pc, now: Instant)
    requires pc.DeqRead? || pc.DeqMark?
    requires PcOk(s, pc) && PcKnown(s.store, pc) && IdOk(s, HoldOf(pc).id)
    ensures SubjectOk(s, pc, now, HoldOf(pc).id)
  {
  }

  lemma AckSubject(s: State, id: Uuid, now: Instant)
    requires IdOk(s, id)
    ensures SubjectOk(s, Ack(AckRem, id), now, id)
  {
  }

  lemma NackReadSubject(s: State, pc: Pc, now: Instant)
    requires pc.NackRead? && PcOk(s, pc) && IdOk(s, pc.id)
    ensures SubjectOk(s, pc, now, pc.id)
  {
  }

  /** An id a process carries has no copies in the lists. */
  lemma NackRemSubject(s: State, t: Task, why: Outcome, now: Instant)
    requires PcOk(s, Nack(NackRem, t, why)) && IdOk(s, t.taskId) && t.taskId in s.log.enqueued
    ensures SubjectOk(s, Nack(NackRem, t, why), now, t.taskId)
  {
  }

  lemma NackWriteSubject(s: State, act: NackAt, t: Task, why: Outcome, now: Instant)
    requires act in {NackError, NackUpdated, NackData, NackStatus}
    requires PcOk(s, Nack(act, t, why)) && IdOk(s, t.taskId) && t.taskId in s.log.enqueued
    requires Copies(s.store, Ref(t.taskId)) == 0
    ensures SubjectOk(s, Nack(act, t, why), now, t.taskId)
  {
  }

  lemma NackPushSubject(s: State, act: NackAt, t: Task, why: Outcome, now: Instant)
    requires act in {NackPush, DeadPush}
    requires PcOk(s, Nack(act, t, why)) && IdOk(s, t.taskId) && t.taskId in s.log.enqueued
    requires Copies(s.store, Ref(t.taskId)) == 0
    ensures SubjectOk(s, Nack(act, t, why), now, t.taskId)
  {
  }

  lemma NackSubject(s: State, act: NackAt, t: Task, why: Outcome, now: Instant)
    requires act != DeadStatus && PcOk(s, Nack(act, t, why)) && IdOk(s, t.taskId) && t.taskId in s.log.enqueued
    requires act != NackRem ==> Copies(s.store, Ref(t.taskId)) == 0
    ensures SubjectOk(s, Nack(act, t, why), now, t.taskId)
  {
    match act
    case NackRem => NackRemSubject(s, t, why, now);
    case NackPush => NackPushSubject(s, act, t, why, now);
    case DeadPush => NackPushSubject(s, act, t, why, now);
    case _ => NackWriteSubject(s, act, t, why, now);
  }

  /** What a command does to the process and to the account of its own id. */
  lemma CommandOnSubject(s: State, pc: Pc, now: Instant)
    requires PcOk(s, pc) && PcKnown(s.store, pc) && HoldOk(s.store, s.log, HoldOf(pc))
    requires Subject(pc).Some? && IdOk(s, Subject(pc).value)
    ensures SubjectOk(s, pc, now, Subject(pc).value)
  {
    match pc
    case Enq(at, t) => EnqSubject(s, at, t, now);
    case DeqRead(_) => DeqSubject(s, pc, now);
    case DeqMark(_, _, _) => DeqSubject(s, pc, now);
    case Ack(_, id) => AckSubject(s, id, now);
    case NackRead(_, _, _, _) => NackReadSubject(s, pc, now);
    case Nack(act, t, why) => NackSubject(s, act, t, why, now);
    case Working(_) =>
  }

  // ---- One step keeps the accounts ----

  predicate Untouched(s: State, s': State, id: Uuid) {
    && SameAccount(s, s', id)
    && (id in s'.log.enqueued <==> id in s.log.enqueued)
    && (Ref(id) in s'.store.pending ==> Ref(id) in s.store.pending)
    && (Ref(id) in s'.store.dead ==> Ref(id) in s.store.dead)
  }

  /** A step of `p` that touches only the account of `x`, which no other process holds. */
  lemma TouchKeepsRetry(s: State, p: Pid, s': State, pc': Pc, x: Option<Uuid>)
    requires RetryInv(s) && s'.procs == s.procs[p := pc']
    requires forall id :: Some(id) != x ==> Untouched(s, s', id)
    requires forall q :: q in s.procs && q != p && x.Some? ==> Subject(s.procs[q]) != x
    requires PcOk(s', pc') && (x.Some? ==> IdOk(s', x.value))
    ensures RetryInv(s')
  {
    forall id ensures IdOk(s', id) {
      if Some(id) != x {
        assert Untouched(s, s', id);
        SameAccountKeepsId(s, s', id);
      }
    }
    forall q | q in s'.procs ensures PcOk(s', s'.procs[q]) {
      if q != p {
        assert !HoldOf(s.procs[q]).Free? ==> Untouched(s, s', HoldOf(s.procs[q]).id);
        SameAccountKeepsPc(s, s', s.procs[q]);
      }
    }
  }

  lemma CommandFrames(s: State, p: Pid, now: Instant)
    requires Inv(s) && RetryInv(s)
    ensures forall id :: Some(id) != Subject(PcOf(s, p)) ==> Untouched(s, AfterCommand(s, p, now), id)
  {
    assert p in s.procs ==> PcKnown(s.store, PcOf(s, p)) && PcOk(s, PcOf(s, p));
    forall id | Some(id) != Subject(PcOf(s, p)) ensures Untouched(s, AfterCommand(s, p, now), id) {
      CommandFrame(s, p, now, id);
    }
  }

  lemma ProceedKeepsSubject(s: State, p: Pid, now: Instant)
    requires Inv(s) && OnceInv(s) && RetryInv(s) && Subject(PcOf(s, p)).Some?
    ensures var s' := AfterCommand(s, p, now); PcOk(s', s'.procs[p]) && IdOk(s', Subject(PcOf(s, p)).value)
    ensures forall q :: q in s.procs && q != p ==> Subject(s.procs[q]) != Subject(PcOf(s, p))
  {
    var pc := PcOf(s, p);
    assert p in s.procs && PcKnown(s.store, pc) && ProcOk(s, p) && PcOk(s, pc);
    assert IdOk(s, Subject(pc).value);
    CommandOnSubject(s, pc, now);
    FreshLogSamePc(s, p, now);
    assert AloneAt(s, p);
  }

  lemma ProceedKeepsRetry(s: State, p: Pid, now: Instant)
    requires Inv(s) && OnceInv(s) && RetryInv(s)
    ensures RetryInv(AfterCommand(s, p, now))
  {
    var s' := AfterCommand(s, p, now);
    CommandFrames(s, p, now);
    if Subject(PcOf(s, p)).Some? {
      ProceedKeepsSubject(s, p, now);
    } else {
      assert p in s.procs ==> PcOk(s, PcOf(s, p)) && PcKnown(s.store, PcOf(s, p));
    }
    TouchKeepsRetry(s, p, s', s'.procs[p], Subject(PcOf(s, p)));
  }

  /** `SubjectOk` speaks of the state before the process moved; the accounts do not read `procs`. */
  lemma FreshLogSamePc(s: State, p: Pid, now: Instant)
    requires Subject(PcOf(s, p)).Some? && SubjectOk(s, PcOf(s, p), now, Subject(PcOf(s, p)).value)
    ensures var s' := AfterCommand(s, p, now);
      PcOk(s', s'.procs[p]) && IdOk(s', Subject(PcOf(s, p)).value)
  {
    var (st', pc') := Command(s.store, PcOf(s, p), now);
    SamePc(State(st', s.procs, LogCommand(s.log, PcOf(s, p))), AfterCommand(s, p, now), pc', Subject(PcOf(s, p)).value);
  }

  lemma SamePc(s: State, s': State, pc: Pc, id: Uuid)
    requires s.store == s'.store && s.log == s'.log && PcOk(s, pc) && IdOk(s, id)
    ensures PcOk(s', pc) && IdOk(s', id)
  {
  }

  /** A pending id is held by no process. */
  lemma PendingIsFree(s: State, id: Uuid, q: Pid)
    requires OnceInv(s) && q in s.procs && Ref(id) in s.store.pending
    ensures Subject(s.procs[q]) != Some(id)
  {
    assert ProcOk(s, q);
    assert Copies(s.store, Ref(id)) <= 1;
  }

  lemma PopKeepsRetry(s: State, p: Pid)
    requires Inv(s) && OnceInv(s) && RetryInv(s) && PcOf(s, p).Idle?
    ensures RetryInv(AfterPop(s, p))
  {
    if s.store.pending != [] {
      var s' := AfterPop(s, p);
      var e := s.store.pending[|s.store.pending| - 1];
      assert e in s.store.pending;
      forall q | q in s.procs && q != p ensures Subject(s.procs[q]) != Some(e.id) {
        PendingIsFree(s, e.id, q);
      }
      PopMovesOne(s.store, e);
      assert Copies(s.store, e) <= 1;
      assert IdOk(s, e.id) && Copies(s.store, e) == 1 && e.id in s.log.enqueued;
      assert CopiesIn(s'.store.pending, e) == 0;
      TouchKeepsRetry(s, p, s', DeqRead(e.id), Some(e.id));
    }
  }

  lemma FinishKeepsRetry(s: State, p: Pid, o: Outcome)
    requires Inv(s) && OnceInv(s) && RetryInv(s) && PcOf(s, p).Working?
    ensures RetryInv(AfterFinish(s, p, o))
  {
    var t := PcOf(s, p).task;
    assert PcOk(s, s.procs[p]) && ProcOk(s, p) && IdOk(s, t.taskId);
    assert Copies(s.store, Ref(t.taskId)) <= 1;
    var s' := AfterFinish(s, p, o);
    TouchKeepsRetry(s, p, s', s'.procs[p], Some(t.taskId));
  }

  lemma EnqueueKeepsRetry(s: State, p: Pid, t: Task)
    requires Inv(s) && OnceInv(s) && RetryInv(s) && PcOf(s, p).Idle? && t.taskId !in s.log.started
    ensures RetryInv(AfterEnqueue(s, p, t))
  {
    var s' := AfterEnqueue(s, p, t);
    forall q | q in s.procs && q != p ensures Subject(s.procs[q]) != Some(t.taskId) {
      assert ProcOk(s, q);
    }
    assert IdOk(s, t.taskId);
    TouchKeepsRetry(s, p, s', Enq(EnqData, t), Some(t.taskId));
  }

  lemma StepKeepsRetry(s: State, step: Step)
    requires Inv(s) && OnceInv(s) && RetryInv(s) && Orderly(s, step) && !step.event.Recover?
    ensures RetryInv(Next(s, step))
  {
    var p := step.p;
    if !Applies(s, step) {
      assert Next(s, step) == s;
    } else if step.event.Proceed? {
      ProceedKeepsRetry(s, p, step.now);
      assert Next(s, step) == AfterCommand(s, p, step.now);
    } else if step.event.Dequeue? {
      PopKeepsRetry(s, p);
      assert Next(s, step) == AfterPop(s, p);
    } else if step.event.Crash? {
      TouchKeepsRetry(s, p, AfterCrash(s, p), Idle, None);
      assert Next(s, step) == AfterCrash(s, p);
    } else if step.event.Enqueue? {
      EnqueueKeepsRetry(s, p, step.event.task);
      assert Next(s, step) == AfterEnqueue(s, p, step.event.task);
    } else {
      FinishKeepsRetry(s, p, step.event.outcome);
      assert Next(s, step) == AfterFinish(s, p, step.event.outcome);
    }
  }

  predicate WithoutRecovery(steps: seq<Step>) {
    forall n :: 0 <= n < |steps| ==> !steps[n].event.Recover?
  }

  lemma {:induction false} RunKeepsRetry(steps: seq<Step>)
    requires OrderlyRun(steps) && WithoutRecovery(steps)
    ensures RetryInv(Run(INIT, steps))
  {
    if steps != [] {
      var n := |steps| - 1;
      OrderlyPrefix(steps);
      RunKeepsRetry(steps[..n]);
      RunKeepsInv(steps[..n]);
      RunKeepsOnce(steps[..n]);
      StepKeepsRetry(Run(INIT, steps[..n]), steps[n]);
    }
  }

  /**
   The stored retry count never exceeds `maxRetries` (or the count the task came with); a
   task is dequeued at most `Budget + 1` times; and it is in the dead list only after exactly
   `Budget + 1` dequeues, all of which failed.
   */
  lemma RetriesAreBounded(steps: seq<Step>, id: Uuid)
    requires OrderlyRun(steps) && WithoutRecovery(steps) && id in Run(INIT, steps).log.enqueued
    ensures var s := Run(INIT, steps); id in s.log.started && HasData(s.store, id)
    ensures var s := Run(INIT, steps); var t := s.log.started[id]; var stored := TaskOf(s.store, id);
      && t.retryCount <= stored.retryCount
      && (stored.retryCount <= stored.maxRetries || stored.retryCount == t.retryCount)
      && Failures(s, id) <= Dequeued(s, id) <= Budget(t) + 1
      && (Ref(id) in s.store.dead ==> Failures(s, id) == Dequeued(s, id) == Budget(t) + 1)
  {
    RunKeepsRetry(steps);
    assert IdOk(Run(INIT, steps), id);
  }

  // ---- The number of dequeues of a run ----

  /** Step `n` takes an id off the pending list. */
  predicate PopsId(steps: seq<Step>, n: nat)
    requires n < |steps|
  {
    var s := Run(INIT, steps[..n]);
    steps[n].event.Dequeue? && Applies(s, steps[n]) && s.store.pending != []
    && s.store.pending[|s.store.pending| - 1].Ref?
  }

  function DequeueCount(steps: seq<Step>): nat
    decreases |steps|
  {
    if steps == [] then 0
    else DequeueCount(steps[..|steps| - 1]) + if PopsId(steps, |steps| - 1) then 1 else 0
  }

  /** One step changes the dequeue counters exactly when it pops an id, and then by one. */
  lemma StepCounts(s: State, step: Step)
    ensures var s' := Next(s, step);
      var pops := step.event.Dequeue? && Applies(s, step) && s.store.pending != []
        && s.store.pending[|s.store.pending| - 1].Ref?;
      && (!pops ==> s'.log.dequeues == s.log.dequeues)
      && (pops ==> var id := s.store.pending[|s.store.pending| - 1].id;
            s'.log.dequeues == s.log.dequeues[id := Dequeued(s, id) + 1])
  {
  }

  predicate Enqueues(s: State, step: Step) {
    step.event.Proceed? && PcOf(s, step.p).Enq? && PcOf(s, step.p).at == EnqPush
  }

  /** The set of enqueued ids grows at an enqueueing LPUSH only. */
  lemma StepEnqueues(s: State, step: Step)
    ensures Next(s, step).log.enqueued ==
      if Enqueues(s, step) then s.log.enqueued + {PcOf(s, step.p).task.taskId} else s.log.enqueued
  {
    if step.event.Proceed? {
      assert Next(s, step) == AfterCommand(s, step.p, step.now);
    }
  }

  lemma StepIsCounted(s: State, step: Step)
    requires Inv(s) && OnceInv(s) && RetryInv(s)
    ensures var s' := Next(s, step);
      var pops := step.event.Dequeue? && Applies(s, step) && s.store.pending != []
        && s.store.pending[|s.store.pending| - 1].Ref?;
      Sum(s'.log.enqueued, s'.log.dequeues) == Sum(s.log.enqueued, s.log.dequeues) + if pops then 1 else 0
  {
    var s' := Next(s, step);
    StepCounts(s, step);
    StepEnqueues(s, step);
    if Enqueues(s, step) {
      var id := PcOf(s, step.p).task.taskId;
      assert ProcOk(s, step.p) && IdOk(s, id);
      SumOfNew(s.log.enqueued, s.log.dequeues, id);
    } else if s'.log.dequeues != s.log.dequeues {
      var e := s.store.pending[|s.store.pending| - 1];
      assert e in s.store.pending && Copies(s.store, e) <= 1;
      SumGrow(s.log.enqueued, s.log.dequeues, s'.log.dequeues, e.id);
    }
  }

  lemma {:induction false} DequeuesAreCounted(steps: seq<Step>)
    requires OrderlyRun(steps) && WithoutRecovery(steps)
    ensures var s := Run(INIT, steps); DequeueCount(steps) == Sum(s.log.enqueued, s.log.dequeues)
  {
    if steps != [] {
      var n := |steps| - 1;
      OrderlyPrefix(steps);
      DequeuesAreCounted(steps[..n]);
      RunKeepsInv(steps[..n]);
      RunKeepsRetry(steps[..n]);
      RunKeepsOnce(steps[..n]);
      StepIsCounted(Run(INIT, steps[..n]), steps[n]);
    }
  }

  function Allowances(started: map<Uuid, Task>): map<Uuid, nat> {
    map id | id in started :: Budget(started[id]) + 1
  }

  /** No run without recovery dequeues more often than the enqueued tasks' allowances add up to. */
  lemma DequeuesAreBounded(steps: seq<Step>)
    requires OrderlyRun(steps) && WithoutRecovery(steps)
    ensures var s := Run(INIT, steps);
      DequeueCount(steps) <= Sum(s.log.enqueued, Allowances(s.log.started))
  {
    var s := Run(INIT, steps);
    DequeuesAreCounted(steps);
    RunKeepsRetry(steps);
    forall id | id in s.log.enqueued
      ensures Counter(s.log.dequeues, id) <= Counter(Allowances(s.log.started), id)
    {
      assert IdOk(s, id);
    }
    SumMonotone(s.log.enqueued, s.log.dequeues, Allowances(s.log.started));
  }
}
