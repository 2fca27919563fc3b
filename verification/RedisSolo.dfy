/**
 The step system run by a lone process computes the sequential operations, command by
 command and as a run.
 */
module RedisSolo {
  import opened Commons
  import opened RedisStore
  import opened RedisProtocol
  import Spec = RedisQueue

  /** `n` commands in a row, at a clock that shows `now`. */
  function Commands(st: Store, pc: Pc, now: Instant, n: nat): (Store, Pc)
    decreases n
  {
    if n == 0 then (st, pc) else After(Commands(st, pc, now, n - 1), now)
  }

  function After(at: (Store, Pc), now: Instant): (Store, Pc) { Command(at.0, at.1, now) }

  lemma {:induction false} CommandsAdd(st: Store, pc: Pc, now: Instant, m: nat, n: nat)
    ensures var (st1, pc1) := Commands(st, pc, now, m); Commands(st, pc, now, m + n) == Commands(st1, pc1, now, n)
    decreases n
  {
    if n != 0 {
      CommandsAdd(st, pc, now, m, n - 1);
    }
  }

  lemma EnqueueAlone(st: Store, t: Task, now: Instant)
    ensures Commands(st, Enq(EnqData, t), now, 5) == (Spec.Enqueue(st, t, now), Idle)
  {
    var id := t.taskId;
    var st2 := SetStatus(SetData(st, id, t), id, Pending);
    var st4 := SetUpdated(SetCreated(st2, id, now), id, now);
    assert Commands(st, Enq(EnqData, t), now, 2) == (st2, Enq(EnqCreated, t));
    assert Commands(st2, Enq(EnqCreated, t), now, 2) == (st4, Enq(EnqPush, t));
    assert Commands(st4, Enq(EnqPush, t), now, 1) == (PushPending(st4, Ref(id)), Idle);
    CommandsAdd(st, Enq(EnqData, t), now, 2, 3);
    CommandsAdd(st2, Enq(EnqCreated, t), now, 2, 1);
  }

  /** After a successful dequeue the worker holds the payload; an orphan is removed. */
  lemma DequeueAlone(st: Store, id: Uuid, now: Instant)
    requires st.pending != [] && st.pending[|st.pending| - 1] == Ref(id)
    ensures var (st', r) := Spec.Dequeue(st, now);
      match r
      case Ok(None) => false
      case Ok(Some(t)) => Commands(PopPush(st), DeqRead(id), now, 3) == (st', Working(t))
      case Err(Serialize) => Commands(PopPush(st), DeqRead(id), now, 1) == (st', Idle)
      case Err(_) => Commands(PopPush(st), DeqRead(id), now, 2) == (st', Idle)
  {
    var st1 := PopPush(st);
    if Readable(st, id) {
      var t := TaskOf(st, id);
      assert Command(st1, DeqRead(id), now) == (st1, DeqMark(false, id, t));
      var st2 := SetStatus(st1, id, Processing);
      assert Commands(st1, DeqMark(false, id, t), now, 2) == (SetUpdated(st2, id, now), Working(t));
    } else if RecordOf(st, id).data == None {
      assert Command(st1, DeqRead(id), now) == (st1, DeqOrphan(id));
    } else {
      assert Command(st1, DeqRead(id), now) == (st1, Idle);
    }
  }

  lemma AckStarts(st: Store, id: Uuid, now: Instant)
    ensures Commands(st, Ack(AckRem, id), now, 1) == (RemProcessing(st, Ref(id)), Ack(AckStatus, id))
  {
    assert Commands(st, Ack(AckRem, id), now, 0) == (st, Ack(AckRem, id));
  }

  lemma AckMarks(st: Store, id: Uuid, now: Instant)
    ensures Commands(st, Ack(AckStatus, id), now, 2) == (SetUpdated(SetStatus(st, id, Done), id, now), Idle)
  {
    assert Commands(st, Ack(AckStatus, id), now, 1) == (SetStatus(st, id, Done), Ack(AckUpdated, id));
  }

  lemma AckAlone(st: Store, id: Uuid, now: Instant)
    ensures Commands(st, Ack(AckRem, id), now, 3) == (Spec.Ack(st, id, now), Idle)
  {
    AckStarts(st, id, now);
    AckMarks(RemProcessing(st, Ref(id)), id, now);
    CommandsAdd(st, Ack(AckRem, id), now, 1, 2);
  }

  /** The three commands both branches of `nack_task` start with. */
  lemma NackStartAlone(st: Store, t: Task, why: Outcome, now: Instant)
    ensures Commands(st, Nack(NackRem, t, why), now, 3) ==
      (Spec.NackStart(st, t.taskId, now), Nack(if t.retryCount < t.maxRetries then NackData else DeadPush, t, why))
  {
    var st1 := RemProcessing(st, Ref(t.taskId));
    var st2 := SetError(st1, t.taskId, NACK_ERROR);
    assert Command(st, Nack(NackRem, t, why), now) == (st1, Nack(NackError, t, why));
    assert Command(st1, Nack(NackError, t, why), now) == (st2, Nack(NackUpdated, t, why));
    assert Commands(st, Nack(NackRem, t, why), now, 2) == Commands(st1, Nack(NackError, t, why), now, 1);
    assert Commands(st2, Nack(NackUpdated, t, why), now, 1) == Command(st2, Nack(NackUpdated, t, why), now);
    CommandsAdd(st, Nack(NackRem, t, why), now, 2, 1);
  }

  lemma NackRetryAlone(st: Store, t: Task, why: Outcome, now: Instant)
    ensures Commands(st, Nack(NackData, t, why), now, 3) == (Spec.NackRetry(st, t), Idle)
  {
    var st2 := SetStatus(SetData(st, t.taskId, t.(retryCount := t.retryCount + 1)), t.taskId, Pending);
    assert Commands(st, Nack(NackData, t, why), now, 2) == (st2, Nack(NackPush, t, why));
    assert Commands(st2, Nack(NackPush, t, why), now, 1) == (PushPending(st2, Ref(t.taskId)), Idle);
    CommandsAdd(st, Nack(NackData, t, why), now, 2, 1);
  }

  lemma NackDeadAlone(st: Store, t: Task, why: Outcome, now: Instant)
    ensures Commands(st, Nack(DeadPush, t, why), now, 2) ==
      (Spec.NackDead(st, t.taskId), if why == Failed then MarkImage(t) else Idle)
  {
    var st1 := PushDead(st, Ref(t.taskId));
    assert Command(st, Nack(DeadPush, t, why), now) == (st1, Nack(DeadStatus, t, why));
  }

  lemma NackAlone(st: Store, id: Uuid, retry: int, max: int, why: Outcome, now: Instant)
    requires Readable(st, id)
    ensures var t := TaskOf(st, id).(retryCount := retry, maxRetries := max);
      Commands(st, NackRead(id, retry, max, why), now, if retry < max then 7 else 6) ==
        (Spec.Nack(st, id, retry, max, now).0, if retry >= max && why == Failed then MarkImage(t) else Idle)
  {
    var t := TaskOf(st, id).(retryCount := retry, maxRetries := max);
    assert Commands(st, NackRead(id, retry, max, why), now, 1) == (st, Nack(NackRem, t, why));
    NackStartAlone(st, t, why, now);
    var st3 := Spec.NackStart(st, t.taskId, now);
    if retry < max {
      NackRetryAlone(st3, t, why, now);
      CommandsAdd(st, Nack(NackRem, t, why), now, 3, 3);
      CommandsAdd(st, NackRead(id, retry, max, why), now, 1, 6);
    } else {
      NackDeadAlone(st3, t, why, now);
      CommandsAdd(st, Nack(NackRem, t, why), now, 3, 2);
      CommandsAdd(st, NackRead(id, retry, max, why), now, 1, 5);
    }
  }

  lemma RecoverOneAlone(st: Store, id: Uuid, rest: seq<Entry>, cutoff: Instant, now: Instant)
    ensures Commands(st, Rec(RecRem, id, rest, cutoff), now, 5) == (Spec.RecoverOne(st, id, now), RecNext(rest, cutoff))
  {
    var st1 := RemProcessing(st, Ref(id));
    var st2 := SetStatus(st1, id, Pending);
    var st3 := SetUpdated(st2, id, now);
    assert Command(st, Rec(RecRem, id, rest, cutoff), now) == (st1, Rec(RecStatus, id, rest, cutoff));
    assert Command(st1, Rec(RecStatus, id, rest, cutoff), now) == (st2, Rec(RecUpdated, id, rest, cutoff));
    assert Command(st2, Rec(RecUpdated, id, rest, cutoff), now) == (st3, Rec(RecError, id, rest, cutoff));
    assert Commands(st, Rec(RecRem, id, rest, cutoff), now, 3) == (st3, Rec(RecError, id, rest, cutoff));
    RecoverPushAlone(st3, id, rest, cutoff, now);
    CommandsAdd(st, Rec(RecRem, id, rest, cutoff), now, 3, 2);
  }

  lemma RecoverPushAlone(st: Store, id: Uuid, rest: seq<Entry>, cutoff: Instant, now: Instant)
    ensures Commands(st, Rec(RecError, id, rest, cutoff), now, 2) ==
      (PushPending(SetError(st, id, RECOVERED), Ref(id)), RecNext(rest, cutoff))
  {
    var st1 := SetError(st, id, RECOVERED);
    assert Command(st, Rec(RecError, id, rest, cutoff), now) == (st1, Rec(RecPush, id, rest, cutoff));
    assert Commands(st1, Rec(RecPush, id, rest, cutoff), now, 1) == (PushPending(st1, Ref(id)), RecNext(rest, cutoff));
  }

  /** One entry of the recovery loop: how many commands it takes, and what they do. */
  lemma RecoverEntryAlone(st: Store, ids: seq<Entry>, cutoff: Instant, now: Instant) returns (n: nat)
    requires ids != []
    ensures Commands(st, RecNext(ids, cutoff), now, n) ==
      (if Spec.Recoverable(st, ids[0], cutoff) then Spec.RecoverOne(st, ids[0].id, now) else st, RecNext(ids[1..], cutoff))
  {
    if !(ids[0].Ref? && Stale(st, ids[0].id, cutoff)) {
      n := 1;
    } else {
      var id, rest := ids[0].id, ids[1..];
      assert Commands(st, RecNext(ids, cutoff), now, 1) == (st, Rec(RecRead, id, rest, cutoff));
      if !Readable(st, id) {
        n := 2;
        CommandsAdd(st, RecNext(ids, cutoff), now, 1, 1);
      } else {
        n := 7;
        assert Commands(st, Rec(RecRead, id, rest, cutoff), now, 1) == (st, Rec(RecRem, id, rest, cutoff));
        RecoverOneAlone(st, id, rest, cutoff, now);
        CommandsAdd(st, Rec(RecRead, id, rest, cutoff), now, 1, 5);
        CommandsAdd(st, RecNext(ids, cutoff), now, 1, 6);
      }
    }
  }

  lemma {:induction false} RecoverAlone(
      st: Store, ids: seq<Entry>, cutoff: Instant, now: Instant, clock: nat -> Instant, k: nat) returns (n: nat)
    requires forall i :: clock(i) == now
    ensures Commands(st, RecNext(ids, cutoff), now, n) == (Spec.RecoverFrom(st, ids, cutoff, clock, k).0, Idle)
    decreases |ids|
  {
    if ids == [] {
      n := 1;
    } else {
      var first := RecoverEntryAlone(st, ids, cutoff, now);
      var st1 := Commands(st, RecNext(ids, cutoff), now, first).0;
      var rest := RecoverAlone(st1, ids[1..], cutoff, now, clock, k + 1);
      n := first + rest;
      CommandsAdd(st, RecNext(ids, cutoff), now, first, rest);
    }
  }

  /** `n` steps of process `p` with nobody in between. */
  function Alone(s: State, p: Pid, now: Instant, n: nat): State
    decreases n
  {
    if n == 0 then s else AfterCommand(Alone(s, p, now, n - 1), p, now)
  }

  /** The parts of the log that no command writes. */
  predicate SameCounts(log: Log, log': Log) {
    && log'.finished == log.finished && log'.dropped == log.dropped && log'.started == log.started
    && log'.dequeues == log.dequeues && log'.failures == log.failures
  }

  lemma {:induction false} AloneRunsCommands(s: State, p: Pid, now: Instant, n: nat)
    requires p in s.procs
    ensures var at := Commands(s.store, s.procs[p], now, n); var s' := Alone(s, p, now, n);
      s'.store == at.0 && s'.procs == s.procs[p := at.1] && SameCounts(s.log, s'.log)
    decreases n
  {
    if n != 0 {
      AloneRunsCommands(s, p, now, n - 1);
      OneCommand(s.procs, Alone(s, p, now, n - 1), p, now, Commands(s.store, s.procs[p], now, n - 1));
    }
  }

  lemma OneCommand(procs: map<Pid, Pc>, s: State, p: Pid, now: Instant, at: (Store, Pc))
    requires s.store == at.0 && s.procs == procs[p := at.1]
    ensures var s' := AfterCommand(s, p, now); var at' := After(at, now);
      s'.store == at'.0 && s'.procs == procs[p := at'.1] && SameCounts(s.log, s'.log)
  {
    assert PcOf(s, p) == at.1;
    CountsStay(s.log, at.1);
    Overwritten(procs, p, at.1, After(at, now).1);
  }

  lemma CountsStay(log: Log, pc: Pc)
    ensures SameCounts(log, LogCommand(log, pc))
  {
  }

  lemma Overwritten(procs: map<Pid, Pc>, p: Pid, pc: Pc, pc': Pc)
    ensures procs[p := pc][p := pc'] == procs[p := pc']
  {
  }

  /** A process that is not about to mark an image, and whose attempt did not return an error. */
  predicate NeverMarks(pc: Pc) {
    match pc
    case MarkImage(_) => false
    case Nack(_, _, why) => why != Failed
    case NackRead(_, _, _, why) => why != Failed
    case _ => true
  }

  lemma CommandNeverMarks(st: Store, pc: Pc, now: Instant)
    requires NeverMarks(pc)
    ensures NeverMarks(Command(st, pc, now).1)
  {
  }

  lemma {:induction false} AloneMarksNothing(s: State, p: Pid, now: Instant, n: nat)
    requires p in s.procs && NeverMarks(s.procs[p])
    ensures var s' := Alone(s, p, now, n); NeverMarks(PcOf(s', p)) && s'.log.failedImages == s.log.failedImages
    decreases n
  {
    if n != 0 {
      AloneMarksNothing(s, p, now, n - 1);
      var before := Alone(s, p, now, n - 1);
      CommandNeverMarks(before.store, PcOf(before, p), now);
    }
  }

  // ---- Runs made of such stretches ----

  /** `longer` continues `steps` with commands only. */
  predicate Continues(steps: seq<Step>, longer: seq<Step>) {
    steps <= longer && forall n :: |steps| <= n < |longer| ==> longer[n].event.Proceed?
  }

  lemma AloneIsRun(steps: seq<Step>, p: Pid, now: Instant, n: nat) returns (longer: seq<Step>)
    ensures Run(INIT, longer) == Alone(Run(INIT, steps), p, now, n) && Continues(steps, longer)
    decreases n
  {
    if n == 0 {
      longer := steps;
    } else {
      var before := AloneIsRun(steps, p, now, n - 1);
      longer := before + [Step(p, Proceed, now)];
      RunSnoc(before, Step(p, Proceed, now));
      assert Next(Run(INIT, before), Step(p, Proceed, now)) == AfterCommand(Run(INIT, before), p, now);
    }
  }

  lemma RunSnoc(steps: seq<Step>, step: Step)
    ensures Run(INIT, steps + [step]) == Next(Run(INIT, steps), step)
  {
    assert (steps + [step])[..|steps|] == steps;
  }

  /** A step that leads to `s1`, and then `n` commands of the same process. */
  lemma StepThenAlone(steps: seq<Step>, step: Step, s1: State, n: nat) returns (longer: seq<Step>)
    requires s1 == Next(Run(INIT, steps), step) && step.p in s1.procs
    ensures var s' := Run(INIT, longer); var at := Commands(s1.store, s1.procs[step.p], step.now, n);
      s'.store == at.0 && s'.procs == s1.procs[step.p := at.1] && SameCounts(s1.log, s'.log)
    ensures Continues(steps + [step], longer)
    ensures NeverMarks(s1.procs[step.p]) ==> Run(INIT, longer).log.failedImages == s1.log.failedImages
  {
    RunSnoc(steps, step);
    if NeverMarks(s1.procs[step.p]) {
      AloneMarksNothing(s1, step.p, step.now, n);
    }
    longer := AloneIsRun(steps + [step], step.p, step.now, n);
    AloneRunsCommands(s1, step.p, step.now, n);
  }
}
