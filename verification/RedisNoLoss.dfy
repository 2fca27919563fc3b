/**
 No task is lost, and no dequeue reports MissingData: for every run of the step system,
 with any interleaving, overlapping recoveries and crashes anywhere.
 */
module RedisNoLoss {
  import opened Commons
  import opened RedisStore
  import opened RedisProtocol

  ghost predicate Carrying(s: State, id: Uuid) {
    exists p :: p in s.procs && Carried(s.procs[p]) == Some(id)
  }

  predicate Listed(st: Store, id: Uuid) {
    Ref(id) in st.pending || Ref(id) in st.processing || Ref(id) in st.dead
  }

  /** Where an enqueued id may be. */
  ghost predicate Accounted(s: State, id: Uuid) {
    Listed(s.store, id) || Carrying(s, id) || id in s.log.finished || id in s.log.dropped
  }

  /** The payload stored for `id` is readable and is the payload of `id`. */
  predicate HasData(st: Store, id: Uuid) {
    Readable(st, id) && TaskOf(st, id).taskId == id
  }

  predicate Known(st: Store, list: seq<Entry>) {
    forall e :: e in list ==> e.Ref? && HasData(st, e.id)
  }

  /** The ids a process works on have their data. */
  predicate PcKnown(st: Store, pc: Pc) {
    match pc
    case Idle => true
    case Enq(at, t) => at != EnqData ==> HasData(st, t.taskId)
    case DeqRead(id) => HasData(st, id)
    case DeqOrphan(_) => false
    case DeqMark(_, id, t) => HasData(st, id) && t.taskId == id
    case Working(t) => HasData(st, t.taskId)
    case Ack(_, id) => HasData(st, id)
    case NackRead(id, _, _, _) => HasData(st, id)
    case Nack(_, t, _) => HasData(st, t.taskId)
    case MarkImage(_) => true
    case RecNext(rest, _) => Known(st, rest)
    case Rec(_, id, rest, _) => HasData(st, id) && Known(st, rest)
  }

  predicate StoreKnown(st: Store) {
    Known(st, st.pending) && Known(st, st.processing) && Known(st, st.dead)
  }

  ghost predicate Inv(s: State) {
    && StoreKnown(s.store)
    && (forall p :: p in s.procs ==> PcKnown(s.store, s.procs[p]))
    && s.log.missing == {}
    && (forall id :: id in s.log.enqueued ==> Accounted(s, id))
  }

  /** Data is never deleted and never replaced by the payload of another id. */
  ghost predicate Keeps(st: Store, st': Store) {
    forall id :: HasData(st, id) ==> HasData(st', id)
  }

  lemma KeepsPc(st: Store, st': Store, pc: Pc)
    requires Keeps(st, st') && PcKnown(st, pc)
    ensures PcKnown(st', pc)
  {
  }

  lemma NackKeeps(st: Store, act: NackAt, t: Task, why: Outcome, now: Instant)
    requires StoreKnown(st) && HasData(st, t.taskId)
    ensures var (st', pc') := NackCommand(st, act, t, why, now); Keeps(st, st') && StoreKnown(st') && PcKnown(st', pc')
  {
  }

  lemma RecKeeps(st: Store, stage: RecAt, id: Uuid, rest: seq<Entry>, cutoff: Instant, now: Instant)
    requires StoreKnown(st) && HasData(st, id) && Known(st, rest)
    ensures var (st', pc') := RecCommand(st, stage, id, rest, cutoff, now);
      Keeps(st, st') && StoreKnown(st') && PcKnown(st', pc')
  {
  }

  /** No command loses data, or puts an id without data on a list. */
  lemma CommandKeeps(st: Store, pc: Pc, now: Instant)
    requires StoreKnown(st) && PcKnown(st, pc)
    ensures var (st', pc') := Command(st, pc, now); Keeps(st, st') && StoreKnown(st') && PcKnown(st', pc')
  {
    match pc
    case Nack(act, t, why) => NackKeeps(st, act, t, why, now);
    case Rec(stage, id, rest, cutoff) => RecKeeps(st, stage, id, rest, cutoff, now);
    case _ =>
  }

  /** Removing one entry keeps the others. */
  lemma LRemKeepsOthers(list: seq<Entry>, e: Entry, x: Entry)
    requires x in list && x != e
    ensures x in LRem(list, e)
  {
    assert multiset(list)[x] > 0;
    assert multiset(LRem(list, e))[x] > 0;
  }

  /** After a step, `id` is still listed or carried by the process that moved. */
  predicate Tracked(st: Store, pc: Pc, id: Uuid) {
    Listed(st, id) || Carried(pc) == Some(id)
  }

  lemma RemTracks(st: Store, gone: Uuid, id: Uuid)
    requires Listed(st, id) && id != gone
    ensures Listed(RemProcessing(st, Ref(gone)), id)
  {
    if Ref(id) in st.processing {
      LRemKeepsOthers(st.processing, Ref(gone), Ref(id));
    }
  }

  lemma AckTracks(st: Store, phase: AckAt, other: Uuid, now: Instant, id: Uuid)
    requires Listed(st, id) && !(phase == AckRem && id == other)
    ensures Listed(AckCommand(st, phase, other, now).0, id)
  {
    if phase == AckRem {
      RemTracks(st, other, id);
    }
  }

  lemma NackTracks(st: Store, act: NackAt, t: Task, why: Outcome, now: Instant, id: Uuid)
    requires Tracked(st, Nack(act, t, why), id)
    ensures var (st', pc') := NackCommand(st, act, t, why, now); Tracked(st', pc', id)
  {
    if act == NackRem && id != t.taskId {
      RemTracks(st, t.taskId, id);
    }
  }

  lemma RecTracks(st: Store, stage: RecAt, other: Uuid, rest: seq<Entry>, cutoff: Instant, now: Instant, id: Uuid)
    requires Tracked(st, Rec(stage, other, rest, cutoff), id)
    ensures var (st', pc') := RecCommand(st, stage, other, rest, cutoff, now); Tracked(st', pc', id)
  {
    if stage == RecRem && id != other {
      RemTracks(st, other, id);
    }
  }

  /** One command loses no id, except for the LREM of an ack. */
  lemma CommandTracks(st: Store, pc: Pc, now: Instant, id: Uuid)
    requires PcKnown(st, pc) && Tracked(st, pc, id)
    ensures var (st', pc') := Command(st, pc, now); Tracked(st', pc', id) || pc == Ack(AckRem, id)
  {
    match pc
    case Ack(phase, other) =>
      if !(phase == AckRem && id == other) {
        AckTracks(st, phase, other, now, id);
      }
    case Nack(act, t, why) => NackTracks(st, act, t, why, now, id);
    case Rec(stage, other, rest, cutoff) => RecTracks(st, stage, other, rest, cutoff, now, id);
    case _ =>
  }

  lemma NoCommandStartsAck(st: Store, pc: Pc, now: Instant)
    ensures var pc' := Command(st, pc, now).1; !(pc'.Ack? && pc'.phase == AckRem)
  {
  }

  /** Acknowledged ids were finished. */
  ghost predicate AcksFinished(s: State) {
    forall p :: p in s.procs && s.procs[p].Ack? && s.procs[p].phase == AckRem ==> s.procs[p].id in s.log.finished
  }

  /**
   A step of process `p`: store and log change, and `p` moves to `pc'`. The step is harmless
   when no data is lost, no id the lists or `p` had is forgotten, and new log entries are
   backed by the store.
   */
  ghost predicate Harmless(s: State, p: Pid, st': Store, pc': Pc, log': Log) {
    && StoreKnown(st') && Keeps(s.store, st') && PcKnown(st', pc')
    && log'.missing == s.log.missing
    && s.log.finished <= log'.finished && s.log.dropped <= log'.dropped
    && (forall id :: Tracked(s.store, PcOf(s, p), id) ==>
          Tracked(st', pc', id) || id in log'.finished || id in log'.dropped)
    && (forall id :: id in log'.enqueued ==> id in s.log.enqueued || Listed(st', id))
    && (pc'.Ack? && pc'.phase == AckRem ==> pc'.id in log'.finished)
  }

  lemma HarmlessKeepsInv(s: State, p: Pid, st': Store, pc': Pc, log': Log)
    requires Inv(s) && AcksFinished(s) && Harmless(s, p, st', pc', log')
    ensures Inv(State(st', s.procs[p := pc'], log')) && AcksFinished(State(st', s.procs[p := pc'], log'))
  {
    var s' := State(st', s.procs[p := pc'], log');
    forall q | q in s'.procs && q != p ensures PcKnown(st', s'.procs[q]) {
      KeepsPc(s.store, st', s.procs[q]);
    }
    forall id | id in log'.enqueued ensures Accounted(s', id) {
      if Tracked(st', pc', id) {
        assert p in s'.procs;
      } else if id in s.log.enqueued && Carrying(s, id) && Carried(PcOf(s, p)) != Some(id) {
        var q :| q in s.procs && Carried(s.procs[q]) == Some(id);
        assert q in s'.procs && s'.procs[q] == s.procs[q];
      }
    }
  }

  lemma ProceedLogs(s: State, pc: Pc, st': Store)
    requires PcKnown(s.store, pc)
    requires pc.Enq? && pc.at == EnqPush ==> st' == PushPending(s.store, Ref(pc.task.taskId))
    ensures var log' := LogCommand(s.log, pc);
      && log'.missing == s.log.missing && log'.finished == s.log.finished && log'.dropped == s.log.dropped
      && forall id :: id in log'.enqueued ==> id in s.log.enqueued || Listed(st', id)
  {
    if pc.Enq? && pc.at == EnqPush {
      assert st'.pending[0] == Ref(pc.task.taskId);
    }
  }

  lemma ProceedKeepsInv(s: State, p: Pid, now: Instant)
    requires Inv(s) && AcksFinished(s)
    ensures Inv(AfterCommand(s, p, now)) && AcksFinished(AfterCommand(s, p, now))
  {
    var pc := PcOf(s, p);
    var (st', pc') := Command(s.store, pc, now);
    assert PcKnown(s.store, pc);
    CommandKeeps(s.store, pc, now);
    ProceedLogs(s, pc, st');
    NoCommandStartsAck(s.store, pc, now);
    forall id | Tracked(s.store, pc, id) ensures Tracked(st', pc', id) || id in s.log.finished {
      CommandTracks(s.store, pc, now, id);
    }
    HarmlessKeepsInv(s, p, st', pc', LogCommand(s.log, pc));
  }

  lemma PopTracks(st: Store, id: Uuid)
    requires st.pending != [] && Listed(st, id)
    ensures Listed(PopPush(st), id)
  {
    PopMovesOne(st, Ref(id));
    var st' := PopPush(st);
    assert CopiesIn(st'.pending, Ref(id)) + CopiesIn(st'.processing, Ref(id))
      == CopiesIn(st.pending, Ref(id)) + CopiesIn(st.processing, Ref(id));
  }

  lemma PopKeepsInv(s: State, p: Pid)
    requires Inv(s) && AcksFinished(s) && PcOf(s, p).Idle?
    ensures Inv(AfterPop(s, p)) && AcksFinished(AfterPop(s, p))
  {
    if s.store.pending != [] {
      var e := s.store.pending[|s.store.pending| - 1];
      assert e in s.store.pending;
      forall id | Listed(s.store, id) ensures Listed(PopPush(s.store), id) {
        PopTracks(s.store, id);
      }
      HarmlessKeepsInv(s, p, PopPush(s.store), DeqRead(e.id), AfterPop(s, p).log);
    }
  }

  lemma LocalStepKeepsInv(s: State, step: Step)
    requires Inv(s) && AcksFinished(s) && Applies(s, step)
    requires step.event.Crash? || step.event.Finish? || step.event.Enqueue? || step.event.Recover?
    ensures Inv(Next(s, step)) && AcksFinished(Next(s, step))
  {
    var p := step.p;
    var s' := Next(s, step);
    assert p in s.procs ==> PcKnown(s.store, s.procs[p]);
    HarmlessKeepsInv(s, p, s.store, s'.procs[p], s'.log);
    assert s' == State(s.store, s.procs[p := s'.procs[p]], s'.log);
  }

  lemma StepKeepsInv(s: State, step: Step)
    requires Inv(s) && AcksFinished(s)
    ensures Inv(Next(s, step)) && AcksFinished(Next(s, step))
  {
    if !Applies(s, step) {
      assert Next(s, step) == s;
    } else if step.event.Proceed? {
      ProceedKeepsInv(s, step.p, step.now);
      assert Next(s, step) == AfterCommand(s, step.p, step.now);
    } else if step.event.Dequeue? {
      PopKeepsInv(s, step.p);
      assert Next(s, step) == AfterPop(s, step.p);
    } else {
      LocalStepKeepsInv(s, step);
    }
  }

  lemma {:induction false} RunKeepsInv(steps: seq<Step>)
    ensures Inv(Run(INIT, steps)) && AcksFinished(Run(INIT, steps))
  {
    if steps != [] {
      var n := |steps| - 1;
      RunKeepsInv(steps[..n]);
      StepKeepsInv(Run(INIT, steps[..n]), steps[n]);
    }
  }

  /**
   In every state of every run, an enqueued id is in a list, carried by a process between
   LREM and LPUSH, finished, or dropped; and no dequeue has reported MissingData.
   */
  lemma NoTaskLost(steps: seq<Step>, id: Uuid)
    ensures var s := Run(INIT, steps);
      && (id in s.log.enqueued ==> Listed(s.store, id) || Carrying(s, id) || id in s.log.finished || id in s.log.dropped)
      && s.log.missing == {}
  {
    RunKeepsInv(steps);
  }

  /** Step `n` of the run is the crash of a process that carries `id`. */
  predicate WindowCrash(steps: seq<Step>, n: nat, id: Uuid)
    requires n < |steps|
  {
    steps[n].event.Crash? && Carried(PcOf(Run(INIT, steps[..n]), steps[n].p)) == Some(id)
  }

  lemma StepDrops(s: State, step: Step, id: Uuid)
    ensures id in Next(s, step).log.dropped <==>
      id in s.log.dropped || (step.event.Crash? && Carried(PcOf(s, step.p)) == Some(id))
  {
    if step.event.Proceed? {
      assert AfterCommand(s, step.p, step.now).log.dropped == s.log.dropped;
    }
  }

  /** An id is dropped exactly when some carrier of it crashed inside its window. */
  lemma {:induction false} DroppedOnlyByWindowCrash(steps: seq<Step>, id: Uuid)
    ensures id in Run(INIT, steps).log.dropped <==> exists n :: 0 <= n < |steps| && WindowCrash(steps, n, id)
  {
    if steps != [] {
      var last := |steps| - 1;
      var before := steps[..last];
      DroppedOnlyByWindowCrash(before, id);
      forall k | 0 <= k < last ensures WindowCrash(before, k, id) == WindowCrash(steps, k, id) {
        assert before[..k] == steps[..k];
      }
      StepDrops(Run(INIT, before), steps[last], id);
      assert id in Run(INIT, steps).log.dropped <==> id in Run(INIT, before).log.dropped || WindowCrash(steps, last, id);
    }
  }

  /** Without such a crash, every enqueued id is listed, carried or finished. */
  lemma NoLossWithoutWindowCrash(steps: seq<Step>, id: Uuid)
    requires id in Run(INIT, steps).log.enqueued
    requires forall n :: 0 <= n < |steps| ==> !WindowCrash(steps, n, id)
    ensures var s := Run(INIT, steps); Listed(s.store, id) || Carrying(s, id) || id in s.log.finished
  {
    NoTaskLost(steps, id);
    DroppedOnlyByWindowCrash(steps, id);
  }
}
