/**
 What the worker does with a payload and with a dead-lettered task. A payload keeps all its
 fields but the retry count through any number of retries and recoveries. The worker marks
 the image of a dead-lettered task as failed only when the last attempt returned an error;
 an attempt that timed out dead-letters the task without a mark, so "dead implies marked"
 holds exactly for the tasks whose last attempt did not time out.
 */
module RedisDeadLetter {
  import opened Commons
  import opened RedisStore
  import opened RedisProtocol
  import opened RedisNoLoss
  import opened RedisExactlyOnce

  predicate SamePayload(t: Task, t0: Task) {
    t.(retryCount := t0.retryCount) == t0
  }

  /** `t` is the payload its id was enqueued with, but for the retry count. */
  predicate Original(log: Log, t: Task) {
    t.taskId in log.started && SamePayload(t, log.started[t.taskId])
  }

  predicate PcOriginal(log: Log, pc: Pc) {
    match pc
    case Enq(_, t) => Original(log, t)
    case DeqMark(_, _, t) => Original(log, t)
    case Working(t) => Original(log, t)
    case NackRead(id, _, max, _) => id in log.started && max == log.started[id].maxRetries
    case Nack(act, t, why) =>
      Original(log, t) && (act == DeadStatus ==> t.taskId in log.deadBy && log.deadBy[t.taskId] == why)
    case MarkImage(t) => Original(log, t) && t.taskId in log.deadBy && log.deadBy[t.taskId] == Failed
    case _ => true
  }

  ghost predicate StoreOriginal(st: Store, log: Log) {
    && (forall id :: HasData(st, id) ==> Original(log, TaskOf(st, id)))
    && (forall id :: id in log.deadBy <==> Ref(id) in st.dead)
  }

  /** Some task of `image` was dead-lettered by an error. */
  ghost predicate Justified(log: Log, image: Uuid) {
    exists id :: id in log.deadBy && id in log.started && log.deadBy[id] == Failed && log.started[id].imageId == image
  }

  ghost predicate MarksJustified(log: Log) {
    forall image :: image in log.failedImages ==> Justified(log, image)
  }

  ghost predicate PayloadInv(s: State) {
    && StoreOriginal(s.store, s.log)
    && (forall p :: p in s.procs ==> PcOriginal(s.log, s.procs[p]))
    && MarksJustified(s.log)
  }

  /** The log only grows, and its entries for an id do not change. */
  ghost predicate Extends(log: Log, log': Log) {
    && (forall id :: id in log.started ==> id in log'.started && log'.started[id] == log.started[id])
    && (forall id :: id in log.deadBy ==> id in log'.deadBy && log'.deadBy[id] == log.deadBy[id])
  }

  lemma ExtendsKeepsPc(log: Log, log': Log, pc: Pc)
    requires Extends(log, log') && PcOriginal(log, pc)
    ensures PcOriginal(log', pc)
  {
  }

  /** A dead-lettered id stays in the dead list, so nothing dead-letters it again. */
  lemma DeadOnce(s: State, p: Pid)
    requires OnceInv(s) && PayloadInv(s) && p in s.procs && s.procs[p].Nack? && s.procs[p].act == DeadPush
    ensures s.procs[p].task.taskId !in s.log.deadBy
  {
    assert ProcOk(s, p);
  }

  lemma ExtendsKeepsJustified(log: Log, log': Log, image: Uuid)
    requires Extends(log, log') && Justified(log, image)
    ensures Justified(log', image)
  {
    var id :| id in log.deadBy && id in log.started && log.deadBy[id] == Failed && log.started[id].imageId == image;
    assert id in log'.deadBy && id in log'.started;
  }

  lemma CommandData(st: Store, log: Log, pc: Pc, now: Instant, id: Uuid)
    requires StoreOriginal(st, log) && PcOriginal(log, pc)
    ensures var st' := Command(st, pc, now).0; HasData(st', id) ==> Original(log, TaskOf(st', id))
  {
    var st' := Command(st, pc, now).0;
    if (pc.Enq? && pc.at == EnqData) || (pc.Nack? && pc.act == NackData) {
      assert id != pc.task.taskId ==> RecordOf(st', id) == RecordOf(st, id);
    } else {
      assert RecordOf(st', id).data == RecordOf(st, id).data;
    }
    assert HasData(st, id) ==> Original(log, TaskOf(st, id));
  }

  lemma CommandOriginal(st: Store, log: Log, pc: Pc, now: Instant)
    requires StoreOriginal(st, log) && PcOriginal(log, pc) && PcKnown(st, pc)
    requires pc.Nack? && pc.act == DeadPush ==> pc.task.taskId !in log.deadBy
    ensures var (st', pc') := Command(st, pc, now); var log' := LogCommand(log, pc);
      StoreOriginal(st', log') && PcOriginal(log', pc') && Extends(log, log')
  {
    var (st', _) := Command(st, pc, now);
    forall id | HasData(st', id) ensures Original(log, TaskOf(st', id)) {
      CommandData(st, log, pc, now, id);
    }
    assert pc.NackRead? ==> Original(log, TaskOf(st, pc.id));
    assert pc.DeqRead? ==> Original(log, TaskOf(st, pc.id));
  }

  lemma CommandJustified(log: Log, pc: Pc)
    requires MarksJustified(log) && PcOriginal(log, pc) && Extends(log, LogCommand(log, pc))
    ensures MarksJustified(LogCommand(log, pc))
  {
    var log' := LogCommand(log, pc);
    forall image | image in log'.failedImages ensures Justified(log', image) {
      if image in log.failedImages {
        ExtendsKeepsJustified(log, log', image);
      } else {
        assert pc.task.taskId in log'.deadBy;
      }
    }
  }

  lemma MoveKeepsPayload(s: State, p: Pid, st': Store, pc': Pc, log': Log)
    requires PayloadInv(s) && StoreOriginal(st', log') && PcOriginal(log', pc') && Extends(s.log, log')
    requires MarksJustified(log')
    ensures PayloadInv(State(st', s.procs[p := pc'], log'))
  {
    forall q | q in s.procs && q != p ensures PcOriginal(log', s.procs[q]) {
      ExtendsKeepsPc(s.log, log', s.procs[q]);
    }
  }

  lemma ProceedKeepsPayload(s: State, p: Pid, now: Instant)
    requires Inv(s) && OnceInv(s) && PayloadInv(s)
    ensures PayloadInv(AfterCommand(s, p, now))
  {
    var pc := PcOf(s, p);
    if pc.Nack? && pc.act == DeadPush {
      DeadOnce(s, p);
    }
    assert p in s.procs ==> PcOriginal(s.log, pc) && PcKnown(s.store, pc);
    CommandOriginal(s.store, s.log, pc, now);
    CommandJustified(s.log, pc);
    var (st', pc') := Command(s.store, pc, now);
    MoveKeepsPayload(s, p, st', pc', LogCommand(s.log, pc));
  }

  lemma SameMarksJustified(log: Log, log': Log)
    requires MarksJustified(log) && Extends(log, log') && log'.failedImages == log.failedImages
    ensures MarksJustified(log')
  {
    forall image | image in log'.failedImages ensures Justified(log', image) {
      ExtendsKeepsJustified(log, log', image);
    }
  }

  lemma EnqueueKeepsPayload(s: State, p: Pid, t: Task)
    requires PayloadInv(s) && t.taskId !in s.log.started
    ensures PayloadInv(AfterEnqueue(s, p, t))
  {
    var s' := AfterEnqueue(s, p, t);
    SameMarksJustified(s.log, s'.log);
    MoveKeepsPayload(s, p, s.store, Enq(EnqData, t), s'.log);
  }

  lemma LocalKeepsPayload(s: State, step: Step)
    requires PayloadInv(s) && Inv(s) && Applies(s, step)
    requires step.event.Crash? || step.event.Finish? || step.event.Recover? || step.event.Dequeue?
    ensures PayloadInv(Next(s, step))
  {
    var p := step.p;
    var s' := Next(s, step);
    if p in s'.procs {
      assert p in s.procs ==> PcOriginal(s.log, s.procs[p]);
      assert Extends(s.log, s'.log) && s'.store.hash == s.store.hash && s'.store.dead == s.store.dead;
      assert StoreOriginal(s'.store, s'.log) by {
        forall id | HasData(s'.store, id) ensures Original(s'.log, TaskOf(s'.store, id)) {
          assert HasData(s.store, id);
        }
      }
      SameMarksJustified(s.log, s'.log);
      MoveKeepsPayload(s, p, s'.store, s'.procs[p], s'.log);
      assert s' == State(s'.store, s.procs[p := s'.procs[p]], s'.log);
    }
  }

  lemma StepKeepsPayload(s: State, step: Step)
    requires Inv(s) && OnceInv(s) && PayloadInv(s) && Orderly(s, step)
    ensures PayloadInv(Next(s, step))
  {
    if !Applies(s, step) {
      assert Next(s, step) == s;
    } else if step.event.Proceed? {
      ProceedKeepsPayload(s, step.p, step.now);
      assert Next(s, step) == AfterCommand(s, step.p, step.now);
    } else if step.event.Enqueue? {
      EnqueueKeepsPayload(s, step.p, step.event.task);
      assert Next(s, step) == AfterEnqueue(s, step.p, step.event.task);
    } else {
      LocalKeepsPayload(s, step);
    }
  }

  lemma {:induction false} RunKeepsPayload(steps: seq<Step>)
    requires OrderlyRun(steps)
    ensures PayloadInv(Run(INIT, steps))
  {
    if steps != [] {
      var n := |steps| - 1;
      OrderlyPrefix(steps);
      RunKeepsPayload(steps[..n]);
      RunKeepsInv(steps[..n]);
      RunKeepsOnce(steps[..n]);
      StepKeepsPayload(Run(INIT, steps[..n]), steps[n]);
    }
  }

  /** Through any number of retries and recoveries, only the retry count of a payload changes. */
  lemma PayloadSurvives(steps: seq<Step>, id: Uuid)
    requires OrderlyRun(steps) && HasData(Run(INIT, steps).store, id)
    ensures var s := Run(INIT, steps);
      && id in s.log.started
      && TaskOf(s.store, id) == s.log.started[id].(retryCount := TaskOf(s.store, id).retryCount)
  {
    RunKeepsPayload(steps);
  }

  // ---- The mark on the image ----

  /** A process still has to mark the image of `id`. */
  ghost predicate Marking(s: State, id: Uuid) {
    exists p :: p in s.procs && WillMark(s.procs[p], id)
  }

  predicate WillMark(pc: Pc, id: Uuid) {
    (pc.MarkImage? || (pc.Nack? && pc.act == DeadStatus && pc.why == Failed)) && pc.task.taskId == id
  }

  ghost predicate MarkInv(s: State) {
    forall id :: id in s.log.deadBy && s.log.deadBy[id] == Failed && id in s.log.started ==>
      s.log.started[id].imageId in s.log.failedImages || Marking(s, id)
  }

  predicate CrashFree(steps: seq<Step>) {
    forall n :: 0 <= n < |steps| ==> !steps[n].event.Crash?
  }

  lemma MarkMoves(s: State, p: Pid, now: Instant, id: Uuid)
    requires PayloadInv(s) && MarkInv(s)
    requires var log' := LogCommand(s.log, PcOf(s, p)); id in log'.deadBy && log'.deadBy[id] == Failed && id in log'.started
    ensures var s' := AfterCommand(s, p, now);
      s'.log.started[id].imageId in s'.log.failedImages || Marking(s', id)
  {
    var s' := AfterCommand(s, p, now);
    var pc := PcOf(s, p);
    assert p in s.procs ==> PcOriginal(s.log, pc);
    if WillMark(s'.procs[p], id) {
      assert p in s'.procs;
    } else if id in s.log.deadBy && s.log.deadBy[id] == Failed && Marking(s, id) {
      var q :| q in s.procs && WillMark(s.procs[q], id);
      assert q != p ==> s'.procs[q] == s.procs[q] && q in s'.procs;
    }
  }

  lemma StillMarking(s: State, step: Step, id: Uuid)
    requires !step.event.Crash? && !step.event.Proceed? && Marking(s, id)
    ensures Marking(Next(s, step), id)
  {
    var q :| q in s.procs && WillMark(s.procs[q], id);
    assert q in Next(s, step).procs && Next(s, step).procs[q] == s.procs[q];
  }

  lemma StepKeepsMark(s: State, step: Step)
    requires PayloadInv(s) && MarkInv(s) && Orderly(s, step) && !step.event.Crash?
    requires forall id :: id in s.log.deadBy ==> id in s.log.started
    ensures MarkInv(Next(s, step))
  {
    var s' := Next(s, step);
    forall id | id in s'.log.deadBy && s'.log.deadBy[id] == Failed && id in s'.log.started
      ensures s'.log.started[id].imageId in s'.log.failedImages || Marking(s', id)
    {
      if step.event.Proceed? {
        MarkMoves(s, step.p, step.now, id);
      } else if Marking(s, id) {
        StillMarking(s, step, id);
      }
    }
  }

  lemma {:induction false} RunKeepsMark(steps: seq<Step>)
    requires OrderlyRun(steps) && CrashFree(steps)
    ensures MarkInv(Run(INIT, steps))
  {
    if steps != [] {
      var n := |steps| - 1;
      var s := Run(INIT, steps[..n]);
      OrderlyPrefix(steps);
      RunKeepsMark(steps[..n]);
      RunKeepsPayload(steps[..n]);
      RunKeepsOnce(steps[..n]);
      forall id | id in s.log.deadBy ensures id in s.log.started {
        assert Ref(id) in s.store.dead && Copies(s.store, Ref(id)) <= 1;
      }
      StepKeepsMark(s, steps[n]);
    }
  }

  /**
   In a crash-free orderly run, once no process is about to mark it, the image of a
   dead-lettered task is marked exactly when the last attempt returned an error; a time-out
   leaves it unmarked. (No two tasks share an image.)
   */
  lemma DeadMarkedUnlessTimedOut(steps: seq<Step>, id: Uuid)
    requires OrderlyRun(steps) && CrashFree(steps)
    requires var s := Run(INIT, steps); Ref(id) in s.store.dead && !Marking(s, id)
    requires var started := Run(INIT, steps).log.started;
      forall x, y :: x in started && y in started && started[x].imageId == started[y].imageId ==> x == y
    ensures var s := Run(INIT, steps);
      && id in s.log.started && id in s.log.deadBy
      && (s.log.started[id].imageId in s.log.failedImages <==> s.log.deadBy[id] == Failed)
  {
    RunKeepsMark(steps);
    RunKeepsPayload(steps);
    RunKeepsOnce(steps);
    var s := Run(INIT, steps);
    assert Copies(s.store, Ref(id)) <= 1;
    assert s.log.started[id].imageId in s.log.failedImages ==> Justified(s.log, s.log.started[id].imageId);
  }
}
