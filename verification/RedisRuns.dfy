/**
 Concrete runs of the step system that show what the assumptions of its theorems are for: an
 overlapping recovery duplicates an id, a crash between LREM and LPUSH loses one, and a task
 that dies of a time-out leaves its image unmarked.
 */
module RedisRuns {
  import opened Commons
  import opened RedisStore
  import opened RedisProtocol
  import opened RedisSolo
  import opened Sums
  import RedisDeadLetter
  import RedisExactlyOnce
  import RedisMarks
  import RedisRetry
  import Spec = RedisQueue

  const TASK := Task(7, 70, "source.png", 0, 3)

  /** What the theorems on retries and marks ask of a run. */
  ghost predicate Plain(steps: seq<Step>) {
    RedisExactlyOnce.OrderlyRun(steps) && RedisRetry.WithoutRecovery(steps) && RedisDeadLetter.CrashFree(steps)
  }

  lemma PlainContinues(steps: seq<Step>, longer: seq<Step>)
    requires Plain(steps) && Continues(steps, longer)
    ensures Plain(longer)
  {
    forall n | 0 <= n < |longer| ensures RedisExactlyOnce.Orderly(Run(INIT, longer[..n]), longer[n]) {
      if n < |steps| {
        assert longer[..n] == steps[..n] && longer[n] == steps[n];
      }
    }
    forall n | 0 <= n < |longer| ensures !longer[n].event.Recover? && !longer[n].event.Crash? {
      if n < |steps| {
        assert longer[n] == steps[n];
      }
    }
  }

  lemma PlainSnoc(steps: seq<Step>, step: Step)
    requires Plain(steps) && RedisExactlyOnce.Orderly(Run(INIT, steps), step) && !step.event.Recover? && !step.event.Crash?
    ensures Plain(steps + [step])
  {
    var longer := steps + [step];
    forall n | 0 <= n < |longer| ensures RedisExactlyOnce.Orderly(Run(INIT, longer[..n]), longer[n]) {
      if n < |steps| {
        assert longer[..n] == steps[..n] && longer[n] == steps[n];
      } else {
        assert longer[..n] == steps;
      }
    }
  }

  /** A run in which process 0 has enqueued `t`. */
  lemma EnqueuedRun(t: Task) returns (steps: seq<Step>)
    ensures var s := Run(INIT, steps);
      && Plain(steps)
      && s.procs == map[0 := Idle] && s.store == Spec.Enqueue(EMPTY, t, 0)
      && s.log.finished == {} && s.log.dropped == {} && s.log.failedImages == {}
      && s.log.started == map[t.taskId := t] && s.log.failures == map[]
  {
    var enq := Step(0, Enqueue(t), 0);
    EnqueueAlone(EMPTY, t, 0);
    assert Next(INIT, enq) == AfterEnqueue(INIT, 0, t);
    PlainSnoc([], enq);
    steps := StepThenAlone([], enq, Next(Run(INIT, []), enq), 5);
    PlainContinues([] + [enq], steps);
  }

  lemma EnqueuedStore(t: Task)
    ensures var st := Spec.Enqueue(EMPTY, t, 0);
      st.pending == [Ref(t.taskId)] && Readable(st, t.taskId) && TaskOf(st, t.taskId) == t
  {
  }

  lemma GoodDequeueAlone(st: Store, t: Task, now: Instant) returns (n: nat)
    requires st.pending == [Ref(t.taskId)] && Readable(st, t.taskId) && TaskOf(st, t.taskId) == t
    ensures Commands(PopPush(st), DeqRead(t.taskId), now, n) == (Spec.Dequeue(st, now).0, Working(t))
  {
    n := 3;
    DequeueAlone(st, t.taskId, now);
  }

  lemma PopStep(s: State, p: Pid, id: Uuid, now: Instant)
    requires s.store.pending == [Ref(id)] && PcOf(s, p).Idle?
    ensures var s' := Next(s, Step(p, Dequeue, now));
      && s'.store == PopPush(s.store) && s'.procs == s.procs[p := DeqRead(id)]
      && s'.log.finished == s.log.finished && s'.log.dropped == s.log.dropped && s'.log.started == s.log.started
      && s'.log.failures == s.log.failures && s'.log.failedImages == s.log.failedImages
  {
  }

  lemma PlainDequeue(steps: seq<Step>, step: Step)
    requires Plain(steps) && Run(INIT, steps).procs == map[0 := Idle] && step.event.Dequeue?
    ensures Plain(steps + [step])
  {
    PlainSnoc(steps, step);
  }

  /** What a run adds to the log of another that has not finished, lost, enqueued or marked anything more. */
  predicate SameRest(log: Log, log': Log) {
    && log'.finished == log.finished && log'.dropped == log.dropped && log'.started == log.started
    && log'.failedImages == log.failedImages
  }

  /** The run goes on with `step`, which leads to `s1`, and with `n` commands of the same process. */
  lemma StepThenRun(before: seq<Step>, step: Step, s1: State, pc: Pc, n: nat) returns (steps: seq<Step>)
    requires Plain(before + [step]) && s1 == Next(Run(INIT, before), step) && NeverMarks(pc)
    requires s1.procs == Run(INIT, before).procs[step.p := pc]
    ensures var s, s' := Run(INIT, before), Run(INIT, steps); var at := Commands(s1.store, pc, step.now, n);
      && Plain(steps) && s'.procs == s.procs[step.p := at.1] && s'.store == at.0
      && SameRest(s1.log, s'.log) && s'.log.failures == s1.log.failures
  {
    steps := StepThenAlone(before, step, s1, n);
    Overwritten(Run(INIT, before).procs, step.p, pc, Commands(s1.store, pc, step.now, n).1);
    PlainContinues(before + [step], steps);
  }

  /** The run goes on: an idle process 1 pops `id` at time `now` and issues `n` commands. */
  lemma PoppedRun(before: seq<Step>, id: Uuid, now: Instant, n: nat) returns (steps: seq<Step>)
    requires Plain(before) && Run(INIT, before).procs == map[0 := Idle] && Run(INIT, before).store.pending == [Ref(id)]
    ensures var s, s' := Run(INIT, before), Run(INIT, steps); var at := Commands(PopPush(s.store), DeqRead(id), now, n);
      && Plain(steps) && s'.procs == s.procs[1 := at.1] && s'.store == at.0
      && SameRest(s.log, s'.log) && s'.log.failures == s.log.failures
  {
    var deq := Step(1, Dequeue, now);
    var s := Run(INIT, before);
    PopStep(s, 1, id, now);
    PlainDequeue(before, deq);
    steps := StepThenRun(before, deq, Next(s, deq), DeqRead(id), n);
  }

  /** A run in which process 1 works on `t`, dequeued at time 0. */
  lemma HolderRun(t: Task) returns (steps: seq<Step>)
    ensures var s := Run(INIT, steps);
      && Plain(steps)
      && s.procs == map[0 := Idle, 1 := Working(t)]
      && s.store == Spec.Dequeue(Spec.Enqueue(EMPTY, t, 0), 0).0
      && s.log.finished == {} && s.log.dropped == {} && s.log.failedImages == {}
      && s.log.started == map[t.taskId := t] && s.log.failures == map[]
  {
    var before := EnqueuedRun(t);
    EnqueuedStore(t);
    var n := GoodDequeueAlone(Spec.Enqueue(EMPTY, t, 0), t, 0);
    steps := PoppedRun(before, t.taskId, 0, n);
  }

  lemma HeldStore(t: Task)
    ensures var st := Spec.Dequeue(Spec.Enqueue(EMPTY, t, 0), 0).0;
      && st.pending == [] && st.processing == [Ref(t.taskId)] && st.dead == []
      && Readable(st, t.taskId) && TaskOf(st, t.taskId) == t && Stale(st, t.taskId, 90)
  {
    assert Spec.Enqueue(EMPTY, t, 0).pending == [Ref(t.taskId)];
  }

  /** The run goes on: process 2 recovers the task process 1 still works on. */
  lemma RecoveredHolderRun() returns (steps: seq<Step>)
    ensures var s := Run(INIT, steps);
      && PcOf(s, 1) == Working(TASK) && s.store.pending == [Ref(7)] && s.store.processing == []
      && Readable(s.store, 7) && TaskOf(s.store, 7) == TASK
  {
    HeldStore(TASK);
    steps := HolderRun(TASK);
    var st := Run(INIT, steps).store;
    var rec := Step(2, Recover(10), 100);
    assert Next(Run(INIT, steps), rec) == AfterRecover(Run(INIT, steps), 2, 90);
    var n := RecoverEntryAlone(st, [Ref(7)], 90, 100);
    steps := StepThenAlone(steps, rec, Next(Run(INIT, steps), rec), n);
    assert Run(INIT, steps).store == Spec.RecoverOne(st, 7, 100);
  }

  lemma NackPushesAgain(st: Store, id: Uuid, retry: int, max: int, now: Instant)
    requires Readable(st, id) && TaskOf(st, id).taskId == id && retry < max
    ensures Spec.Nack(st, id, retry, max, now).0.pending == [Ref(id)] + st.pending
  {
  }

  /** The run ends with the nack of process 1. */
  lemma OverlapRun() returns (steps: seq<Step>)
    ensures Run(INIT, steps).store.pending == [Ref(7), Ref(7)]
  {
    steps := RecoveredHolderRun();
    var s := Run(INIT, steps);
    var fail := Step(1, Finish(Failed), 100);
    assert Next(s, fail) == AfterFinish(s, 1, Failed);
    NackAlone(s.store, 7, 0, 3, Failed, 100);
    NackPushesAgain(s.store, 7, 0, 3, 100);
    steps := StepThenAlone(steps, fail, Next(Run(INIT, steps), fail), 7);
  }

  /** A recovery that overlaps a live holder leads to a queue that lists one id twice. */
  lemma OverlapDuplicates()
    ensures exists steps :: CopiesIn(Run(INIT, steps).store.pending, Ref(7)) == 2
  {
    var steps := OverlapRun();
    assert CopiesIn(Run(INIT, steps).store.pending, Ref(7)) == 2;
  }

  /** The nack of process 1 stops after its LREM. */
  lemma CrashedNackRun() returns (steps: seq<Step>)
    ensures var s := Run(INIT, steps);
      && s.procs == map[0 := Idle, 1 := Nack(NackError, TASK, Failed)]
      && s.store.pending == [] && s.store.processing == [] && s.store.dead == [] && s.log.finished == {}
  {
    HeldStore(TASK);
    steps := HolderRun(TASK);
    var st := Run(INIT, steps).store;
    var fail := Step(1, Finish(Failed), 1);
    assert Next(Run(INIT, steps), fail) == AfterFinish(Run(INIT, steps), 1, Failed);
    assert Commands(st, NackRead(7, 0, 3, Failed), 1, 2) == (RemProcessing(st, Ref(7)), Nack(NackError, TASK, Failed));
    steps := StepThenAlone(steps, fail, Next(Run(INIT, steps), fail), 2);
  }

  /** A crash between LREM and LPUSH leaves an enqueued, unfinished id nowhere. */
  lemma WindowCrashLoses()
    ensures exists steps :: var s := Run(INIT, steps);
      7 in s.log.dropped && 7 !in s.log.finished && RedisExactlyOnce.Places(s, 7) == 0
  {
    var steps := CrashedNackRun();
    var s := Run(INIT, steps);
    var crash := Step(1, Crash, 1);
    assert Next(s, crash) == AfterCrash(s, 1);
    steps := StepThenAlone(steps, crash, Next(Run(INIT, steps), crash), 0);
    assert Run(INIT, steps).procs == map[0 := Idle, 1 := Idle];
  }

  // ---- A death that nobody marks ----

  const LAST_TRY := Task(7, 70, "source.png", 0, 0)

  lemma LateNack(st: Store, t: Task, now: Instant) returns (n: nat)
    requires Readable(st, t.taskId) && TaskOf(st, t.taskId) == t && t.retryCount >= t.maxRetries
    requires st.pending == [] && st.processing == [Ref(t.taskId)] && st.dead == []
    ensures var at := Commands(st, NackRead(t.taskId, t.retryCount, t.maxRetries, TimedOut), now, n);
      at.0.dead == [Ref(t.taskId)] && at.1 == Idle
  {
    n := 6;
    NackAlone(st, t.taskId, t.retryCount, t.maxRetries, TimedOut, now);
    assert Spec.Nack(st, t.taskId, t.retryCount, t.maxRetries, now).0.dead == [Ref(t.taskId)];
  }

  lemma LateStep(s: State, p: Pid, t: Task, now: Instant)
    requires PcOf(s, p) == Working(t)
    ensures var s' := Next(s, Step(p, Finish(TimedOut), now));
      && s'.store == s.store && s'.procs == s.procs[p := NackRead(t.taskId, t.retryCount, t.maxRetries, TimedOut)]
      && s'.log.started == s.log.started && s'.log.failedImages == s.log.failedImages
      && s'.log.failures == s.log.failures[t.taskId := Counter(s.log.failures, t.taskId) + 1]
  {
  }

  lemma PlainFinish(steps: seq<Step>, step: Step)
    requires Plain(steps) && step.event.Finish?
    ensures Plain(steps + [step])
  {
    PlainSnoc(steps, step);
  }

  /** The run goes on: process 1 times out and issues `n` commands. */
  lemma LateRun(before: seq<Step>, t: Task, n: nat) returns (steps: seq<Step>)
    requires Plain(before) && PcOf(Run(INIT, before), 1) == Working(t)
    ensures var s, s' := Run(INIT, before), Run(INIT, steps);
      var at := Commands(s.store, NackRead(t.taskId, t.retryCount, t.maxRetries, TimedOut), 1, n);
      && Plain(steps) && s'.procs == s.procs[1 := at.1] && s'.store == at.0
      && s'.log.failedImages == s.log.failedImages && s'.log.started == s.log.started
      && s'.log.failures == s.log.failures[t.taskId := Counter(s.log.failures, t.taskId) + 1]
  {
    var late := Step(1, Finish(TimedOut), 1);
    var s := Run(INIT, before);
    var pc := NackRead(t.taskId, t.retryCount, t.maxRetries, TimedOut);
    LateStep(s, 1, t, 1);
    PlainFinish(before, late);
    steps := StepThenRun(before, late, Next(s, late), pc, n);
  }

  /** The run goes on: process 1 times out on its last try. */
  lemma TimedOutRun(before: seq<Step>, t: Task) returns (steps: seq<Step>)
    requires Plain(before) && t.retryCount >= t.maxRetries
    requires var s := Run(INIT, before);
      && s.procs == map[0 := Idle, 1 := Working(t)] && Readable(s.store, t.taskId) && TaskOf(s.store, t.taskId) == t
      && s.store.pending == [] && s.store.processing == [Ref(t.taskId)] && s.store.dead == []
    ensures var s, s' := Run(INIT, before), Run(INIT, steps);
      && Plain(steps)
      && s'.procs == map[0 := Idle, 1 := Idle] && s'.store.dead == [Ref(t.taskId)]
      && s'.log.failedImages == s.log.failedImages && s'.log.started == s.log.started
      && s'.log.failures == s.log.failures[t.taskId := Counter(s.log.failures, t.taskId) + 1]
  {
    var n := LateNack(Run(INIT, before).store, t, 1);
    steps := LateRun(before, t, n);
  }

  /** A task with no retry left dies of one time-out, and its image is never marked. */
  lemma TimedOutDeathIsUnmarked()
    ensures exists steps :: var s := Run(INIT, steps);
      && Plain(steps)
      && s.store.dead == [Ref(7)] && s.log.started == map[7 := LAST_TRY]
      && RedisRetry.Failures(s, 7) == Budget(LAST_TRY) + 1 == 1
      && !RedisDeadLetter.Marking(s, 7) && LAST_TRY.imageId !in s.log.failedImages
  {
    HeldStore(LAST_TRY);
    var before := HolderRun(LAST_TRY);
    var steps := TimedOutRun(before, LAST_TRY);
    assert Plain(steps);
  }

  // ---- A mark that comes too late ----

  lemma PoppedStore(t: Task)
    ensures var st := PopPush(Spec.Enqueue(EMPTY, t, 0));
      && st.pending == [] && st.processing == [Ref(t.taskId)]
      && Readable(st, t.taskId) && TaskOf(st, t.taskId) == t && Stale(st, t.taskId, 700)
  {
    EnqueuedStore(t);
  }

  /** The first two commands of the dequeue: the payload is read, the time not yet written. */
  lemma HalfDequeue(st: Store, t: Task, now: Instant) returns (n: nat)
    requires Readable(st, t.taskId) && TaskOf(st, t.taskId) == t
    ensures Commands(st, DeqRead(t.taskId), now, n) == (SetStatus(st, t.taskId, Processing), DeqMark(true, t.taskId, t))
  {
    n := 2;
    assert Commands(st, DeqRead(t.taskId), now, 1) == (st, DeqMark(false, t.taskId, t));
  }

  /** The check and the read of a recovery that reaches a stale id. */
  lemma HalfRecovery(st: Store, id: Uuid, cutoff: Instant, now: Instant) returns (n: nat)
    requires Readable(st, id) && Stale(st, id, cutoff)
    ensures Commands(st, RecNext([Ref(id)], cutoff), now, n) == (st, Rec(RecRem, id, [], cutoff))
  {
    n := 2;
    assert [Ref(id)][1..] == [];
    assert Commands(st, RecNext([Ref(id)], cutoff), now, 1) == (st, Rec(RecRead, id, [], cutoff));
  }

  /** Process 1 has popped the task at time 1000; process 2 has found it stale, with cutoff 700. */
  lemma CheckedRun() returns (steps: seq<Step>)
    ensures var s := Run(INIT, steps);
      && s.procs == map[0 := Idle, 1 := DeqMark(true, 7, TASK), 2 := Rec(RecRem, 7, [], 700)]
      && s.store.processing == [Ref(7)]
  {
    var before := EnqueuedRun(TASK);
    EnqueuedStore(TASK);
    PoppedStore(TASK);
    var popped := PopPush(Run(INIT, before).store);
    var n := HalfDequeue(popped, TASK, 1000);
    steps := PoppedRun(before, 7, 1000, n);
    var rec := Step(2, Recover(300), 1000);
    var s := Run(INIT, steps);
    assert s.store == SetStatus(popped, 7, Processing);
    assert Next(s, rec) == AfterRecover(s, 2, 700);
    var k := HalfRecovery(s.store, 7, 700, 1000);
    steps := StepThenAlone(steps, rec, Next(s, rec), k);
  }

  /** The mark of process 1, and then the LREM of process 2. */
  lemma MarkThenRemove(before: seq<Step>) returns (steps: seq<Step>)
    requires var s := Run(INIT, before);
      && s.procs == map[0 := Idle, 1 := DeqMark(true, 7, TASK), 2 := Rec(RecRem, 7, [], 700)]
      && s.store.processing == [Ref(7)]
    ensures |steps| == |before| + 2 && steps[|before|].now == 1000
    ensures RedisMarks.Marks(steps, |before|, 7) && RedisMarks.Removes(steps, |before| + 1, 7, 700)
    ensures PcOf(Run(INIT, steps), 1) == Working(TASK) && Run(INIT, steps).store.processing == []
  {
    var mark, remove := Step(1, Proceed, 1000), Step(2, Proceed, 1000);
    var s := Run(INIT, before);
    var s1 := AfterCommand(s, 1, 1000);
    assert s1.procs == s.procs[1 := Working(TASK)] && s1.store.processing == [Ref(7)];
    assert Next(s, mark) == s1 && Next(s1, remove) == AfterCommand(s1, 2, 1000);
    steps := before + [mark] + [remove];
    RunSnoc(before, mark);
    RunSnoc(before + [mark], remove);
    assert steps[..|before|] == before && steps[..|before| + 1] == before + [mark];
  }

  /**
   A recovery can take a task from the worker that dequeued it, although the dequeue was
   marked later than the cutoff: it found the task stale just before the mark.
   */
  lemma LateMarkIsTaken() returns (steps: seq<Step>, m: nat)
    ensures m + 2 == |steps| && RedisMarks.Marks(steps, m, 7) && steps[m].now >= 700 && RedisMarks.Removes(steps, m + 1, 7, 700)
    ensures PcOf(Run(INIT, steps), 1) == Working(TASK) && Run(INIT, steps).store.processing == []
  {
    var before := CheckedRun();
    steps := MarkThenRemove(before);
    m := |before|;
  }
}
