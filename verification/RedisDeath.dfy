/**
 When a task is in the dead list, in every orderly run without recoveries and crashes: as
 soon as no process has hold of it, exactly when it has failed `Budget + 1` times. With
 `RedisRetry`, which holds with crashes too, this makes the number of failures exact.
 */
module RedisDeath {
  import opened Commons
  import opened Sums
  import opened RedisStore
  import opened RedisProtocol
  import opened RedisNoLoss
  import opened RedisExactlyOnce
  import opened RedisRetry
  import opened RedisDeadLetter

  predicate HasHold(pc: Pc, id: Uuid) { !HoldOf(pc).Free? && HoldOf(pc).id == id }

  ghost predicate Held(s: State, id: Uuid) {
    exists p :: p in s.procs && HasHold(s.procs[p], id)
  }

  // ---- Every processing entry has an owner ----

  ghost predicate OwnedEntries(s: State) {
    forall id: Uuid :: Ref(id) in s.store.processing ==> Owned(s, id)
  }

  ghost predicate Owned(s: State, id: Uuid) {
    exists p :: p in s.procs && HoldOf(s.procs[p]) == Owning(id)
  }

  lemma MoveKeepsOwner(s: State, p: Pid, st': Store, pc': Pc, log': Log, eff: Effect, id: Uuid)
    requires HasEffect(s.store, Holder(s, p), st', HoldOf(pc'), eff) && !eff.LetGo?
    requires CopiesIn(s.store.processing, Ref(id)) <= 1 && (Ref(id) in s.store.processing ==> Owned(s, id))
    requires Ref(id) in st'.processing
    ensures Owned(State(st', s.procs[p := pc'], log'), id)
  {
    var s' := State(st', s.procs[p := pc'], log');
    EffectOnCopies(s.store, Holder(s, p), st', HoldOf(pc'), eff, id);
    assert CopiesIn(st'.processing, Ref(id)) > 0;
    if HoldOf(pc') == Owning(id) {
      assert p in s'.procs;
    } else {
      assert CopiesIn(s.store.processing, Ref(id)) > 0;
      var q :| q in s.procs && HoldOf(s.procs[q]) == Owning(id);
      assert q != p && s'.procs[q] == s.procs[q];
    }
  }

  lemma MoveKeepsOwned(s: State, p: Pid, st': Store, pc': Pc, log': Log, eff: Effect)
    requires HasEffect(s.store, Holder(s, p), st', HoldOf(pc'), eff) && !eff.LetGo?
    requires Unique(s.store, s.log) && OwnedEntries(s)
    ensures OwnedEntries(State(st', s.procs[p := pc'], log'))
  {
    forall id: Uuid | Ref(id) in st'.processing ensures Owned(State(st', s.procs[p := pc'], log'), id) {
      assert Copies(s.store, Ref(id)) <= 1;
      MoveKeepsOwner(s, p, st', pc', log', eff, id);
    }
  }

  lemma ProceedKeepsOwned(s: State, p: Pid, now: Instant)
    requires Inv(s) && OnceInv(s) && OwnedEntries(s)
    ensures OwnedEntries(AfterCommand(s, p, now))
  {
    var (st', pc') := Command(s.store, PcOf(s, p), now);
    assert PcKnown(s.store, PcOf(s, p));
    CommandEffect(s.store, PcOf(s, p), now);
    MoveKeepsOwned(s, p, st', pc', LogCommand(s.log, PcOf(s, p)), EffectOf(PcOf(s, p)));
  }

  lemma PopKeepsOwned(s: State, p: Pid)
    requires Inv(s) && OnceInv(s) && OwnedEntries(s) && PcOf(s, p).Idle?
    ensures OwnedEntries(AfterPop(s, p))
  {
    if s.store.pending != [] {
      var e := s.store.pending[|s.store.pending| - 1];
      assert e in s.store.pending;
      MoveKeepsOwned(s, p, PopPush(s.store), DeqRead(e.id), AfterPop(s, p).log, Pop(e.id));
    }
  }

  lemma LocalKeepsOwned(s: State, step: Step)
    requires OnceInv(s) && OwnedEntries(s) && Applies(s, step) && (step.event.Enqueue? || step.event.Finish?)
    ensures OwnedEntries(Next(s, step))
  {
    var s' := Next(s, step);
    var eff := if step.event.Enqueue? then Begin(step.event.task.taskId) else Quiet;
    MoveKeepsOwned(s, step.p, s.store, s'.procs[step.p], s'.log, eff);
    assert s' == State(s.store, s.procs[step.p := s'.procs[step.p]], s'.log);
  }

  lemma StepKeepsOwned(s: State, step: Step)
    requires Inv(s) && OnceInv(s) && OwnedEntries(s) && !step.event.Recover? && !step.event.Crash?
    ensures OwnedEntries(Next(s, step))
  {
    if !Applies(s, step) {
      assert Next(s, step) == s;
    } else if step.event.Proceed? {
      ProceedKeepsOwned(s, step.p, step.now);
      assert Next(s, step) == AfterCommand(s, step.p, step.now);
    } else if step.event.Dequeue? {
      PopKeepsOwned(s, step.p);
      assert Next(s, step) == AfterPop(s, step.p);
    } else {
      LocalKeepsOwned(s, step);
    }
  }

  // ---- A finished id stays finished ----

  /** Only an ack still has hold of a finished id, and its last attempt did not fail. */
  ghost predicate FinishedOk(s: State, id: Uuid) {
    id in s.log.finished ==>
      && id in s.log.started && HasData(s.store, id) && Failures(s, id) == Spent(s, id)
      && Ref(id) !in s.store.pending && Ref(id) !in s.store.dead
      && forall p :: p in s.procs && HasHold(s.procs[p], id) ==> s.procs[p].Ack?
  }

  /** A command does not pass from one id to another, unless it belongs to a recovery. */
  lemma CommandKeepsId(s: State, p: Pid, now: Instant, id: Uuid)
    requires PcKnown(s.store, PcOf(s, p)) && !Recovering(PcOf(s, p))
    ensures HasHold(AfterCommand(s, p, now).procs[p], id) ==> HasHold(PcOf(s, p), id)
  {
    CommandEffect(s.store, PcOf(s, p), now);
  }

  lemma AckLeaves(s: State, p: Pid, now: Instant, id: Uuid)
    requires PcOf(s, p).Ack? && HasHold(PcOf(s, p), id)
    ensures var s' := AfterCommand(s, p, now);
      && HoldOf(s'.procs[p]).Free? && SameAccount(s, s', id)
      && s'.store.pending == s.store.pending && s'.store.dead == s.store.dead && s'.log.finished == s.log.finished
  {
  }

  lemma ProceedKeepsFinished(s: State, p: Pid, now: Instant, id: Uuid)
    requires Inv(s) && RetryInv(s) && FinishedOk(s, id)
    ensures FinishedOk(AfterCommand(s, p, now), id)
  {
    var s' := AfterCommand(s, p, now);
    assert p in s.procs ==> PcKnown(s.store, PcOf(s, p)) && PcOk(s, PcOf(s, p));
    if id in s'.log.finished {
      CommandKeepsId(s, p, now, id);
      if HasHold(PcOf(s, p), id) {
        AckLeaves(s, p, now, id);
      } else {
        CommandFrame(s, p, now, id);
      }
      forall q | q in s'.procs && HasHold(s'.procs[q], id) ensures s'.procs[q].Ack? {
        if q != p {
          assert s'.procs[q] == s.procs[q];
        }
      }
    }
  }

  lemma FinishKeepsFinished(s: State, p: Pid, o: Outcome, id: Uuid)
    requires Inv(s) && OnceInv(s) && RetryInv(s) && PcOf(s, p).Working? && FinishedOk(s, id)
    ensures FinishedOk(AfterFinish(s, p, o), id)
  {
    var t := PcOf(s, p).task;
    assert PcOk(s, s.procs[p]) && ProcOk(s, p) && PcKnown(s.store, s.procs[p]);
    if t.taskId == id {
      assert HasHold(s.procs[p], id) && id !in s.log.finished;
      assert Copies(s.store, Ref(id)) <= 1;
    }
  }

  lemma PopKeepsFinished(s: State, p: Pid, id: Uuid)
    requires Inv(s) && PcOf(s, p).Idle? && FinishedOk(s, id)
    ensures FinishedOk(AfterPop(s, p), id)
  {
    if s.store.pending != [] {
      var e := s.store.pending[|s.store.pending| - 1];
      assert e in s.store.pending;
      var s' := AfterPop(s, p);
      assert forall x :: x in s'.store.pending ==> x in s.store.pending;
    }
  }

  lemma StepKeepsFinished(s: State, step: Step, id: Uuid)
    requires Inv(s) && OnceInv(s) && RetryInv(s) && FinishedOk(s, id)
    requires Orderly(s, step) && !step.event.Recover? && !step.event.Crash?
    ensures FinishedOk(Next(s, step), id)
  {
    var p, s' := step.p, Next(s, step);
    if !Applies(s, step) {
      assert s' == s;
    } else if step.event.Proceed? {
      assert s' == AfterCommand(s, p, step.now);
      ProceedKeepsFinished(s, p, step.now, id);
    } else if step.event.Dequeue? {
      assert s' == AfterPop(s, p);
      PopKeepsFinished(s, p, id);
    } else if step.event.Enqueue? {
      assert s' == AfterEnqueue(s, p, step.event.task);
    } else {
      assert s' == AfterFinish(s, p, step.event.outcome);
      FinishKeepsFinished(s, p, step.event.outcome, id);
    }
  }

  lemma {:induction false} RunKeepsDeath(steps: seq<Step>, id: Uuid)
    requires OrderlyRun(steps) && WithoutRecovery(steps) && CrashFree(steps)
    ensures OwnedEntries(Run(INIT, steps)) && FinishedOk(Run(INIT, steps), id)
  {
    if steps != [] {
      var n := |steps| - 1;
      OrderlyPrefix(steps);
      RunKeepsDeath(steps[..n], id);
      RunKeepsInv(steps[..n]);
      RunKeepsOnce(steps[..n]);
      RunKeepsRetry(steps[..n]);
      StepKeepsOwned(Run(INIT, steps[..n]), steps[n]);
      StepKeepsFinished(Run(INIT, steps[..n]), steps[n], id);
    }
  }

  // ---- The main result ----

  lemma NothingDropped(steps: seq<Step>, id: Uuid)
    requires CrashFree(steps)
    ensures id !in Run(INIT, steps).log.dropped
  {
    DroppedOnlyByWindowCrash(steps, id);
  }

  lemma OwnerHasHold(s: State, id: Uuid)
    requires Owned(s, id) || Carrying(s, id)
    ensures Held(s, id)
  {
    var p :| p in s.procs && (HoldOf(s.procs[p]) == Owning(id) || Carried(s.procs[p]) == Some(id));
    assert HasHold(s.procs[p], id);
  }

  /** A task that no process has hold of is pending, dead or finished. */
  lemma SettledSomewhere(steps: seq<Step>, id: Uuid)
    requires OrderlyRun(steps) && WithoutRecovery(steps) && CrashFree(steps)
    requires id in Run(INIT, steps).log.enqueued && !Held(Run(INIT, steps), id)
    ensures var s := Run(INIT, steps); Ref(id) in s.store.pending || Ref(id) in s.store.dead || id in s.log.finished
  {
    var s := Run(INIT, steps);
    RunKeepsDeath(steps, id);
    NoTaskLost(steps, id);
    NothingDropped(steps, id);
    if Owned(s, id) || Carrying(s, id) {
      OwnerHasHold(s, id);
    }
  }

  /**
   Once no process has hold of it, a task is dead if and only if it has failed as often as
   it had retries, plus one: it is dead-lettered at that failure, never earlier and never
   later.
   */
  lemma DeadIffExhausted(steps: seq<Step>, id: Uuid)
    requires OrderlyRun(steps) && WithoutRecovery(steps) && CrashFree(steps)
    requires id in Run(INIT, steps).log.enqueued && !Held(Run(INIT, steps), id)
    ensures var s := Run(INIT, steps);
      id in s.log.started && (Ref(id) in s.store.dead <==> Failures(s, id) == Budget(s.log.started[id]) + 1)
  {
    var s := Run(INIT, steps);
    SettledSomewhere(steps, id);
    RunKeepsDeath(steps, id);
    RunKeepsRetry(steps);
    assert IdOk(s, id) && FinishedOk(s, id);
  }
}
