/**
 When an id comes to be in two places, in runs whose only discipline is that task ids are
 fresh: any number of recoveries may overlap each other and the workers, and processes may
 crash. It happens exactly at the LREM of a nack or of a recovery that finds no entry, while
 the id is listed, or carried by somebody, already. The count that the LREM returns would
 tell; the code does not look at it.
 */
module RedisTwoPlaces {
  import opened Commons
  import opened RedisStore
  import opened RedisProtocol
  import opened RedisNoLoss
  import opened RedisExactlyOnce

  /** The processes that carry `id` between an LREM and an LPUSH. */
  ghost function Carriers(procs: map<Pid, Pc>, id: Uuid): set<Pid> {
    set p | p in procs && HoldOf(procs[p]) == Carrier(id)
  }

  /** In how many places `id` is. */
  ghost function Weight(s: State, id: Uuid): nat { Copies(s.store, Ref(id)) + |Carriers(s.procs, id)| }

  lemma InSomePlace(s: State, id: Uuid)
    ensures Weight(s, id) > 0 <==> Listed(s.store, id) || Carrying(s, id)
  {
    if Carrying(s, id) {
      var p :| p in s.procs && Carried(s.procs[p]) == Some(id);
      assert p in Carriers(s.procs, id);
    } else {
      forall p ensures p !in Carriers(s.procs, id) {
        assert p in s.procs ==> Carried(s.procs[p]) != Some(id);
      }
      assert Carriers(s.procs, id) == {};
    }
  }

  /** The step is the LREM of a nack or of a recovery, and `id` is not in the processing list. */
  predicate BlindRemoval(s: State, step: Step, id: Uuid) {
    var pc := PcOf(s, step.p);
    && step.event.Proceed? && Ref(id) !in s.store.processing
    && ((pc.Nack? && pc.act == NackRem && pc.task.taskId == id) || (pc.Rec? && pc.stage == RecRem && pc.id == id))
  }

  /** The step is the LPUSH that ends the enqueueing of `id`. */
  predicate Pushes(s: State, step: Step, id: Uuid) {
    var pc := PcOf(s, step.p);
    step.event.Proceed? && pc.Enq? && pc.at == EnqPush && pc.task.taskId == id
  }

  // ---- How one step changes the number of places ----

  function One(b: bool): nat { if b then 1 else 0 }

  lemma CarriersMove(procs: map<Pid, Pc>, p: Pid, pc': Pc, id: Uuid)
    ensures |Carriers(procs[p := pc'], id)|
         == |Carriers(procs, id)| - One(p in Carriers(procs, id)) + One(HoldOf(pc') == Carrier(id))
  {
    var others := Carriers(procs, id) - {p};
    assert Carriers(procs, id) == if p in Carriers(procs, id) then others + {p} else others;
    assert Carriers(procs[p := pc'], id) == if HoldOf(pc') == Carrier(id) then others + {p} else others;
  }

  /** Removing an entry that is not there adds a carrier; pushing an id adds an entry that nobody carried. */
  lemma MoveWeighs(s: State, p: Pid, st': Store, pc': Pc, log': Log, eff: Effect, id: Uuid)
    requires HasEffect(s.store, Holder(s, p), st', HoldOf(pc'), eff)
    ensures var s' := State(st', s.procs[p := pc'], log');
      var blind := eff == Take(id) && Ref(id) !in s.store.processing;
      var pushes := eff == Put(id) && Holder(s, p) == Enqueuing(id);
      && Weight(s', id) <= Weight(s, id) + 1
      && (Weight(s', id) == Weight(s, id) + 1 <==> blind || pushes)
  {
    EffectOnCopies(s.store, Holder(s, p), st', HoldOf(pc'), eff, id);
    CarriersMove(s.procs, p, pc', id);
  }

  lemma StepWeighs(s: State, step: Step, id: Uuid)
    requires Inv(s)
    ensures Weight(Next(s, step), id) <= Weight(s, id) + 1
    ensures Weight(Next(s, step), id) == Weight(s, id) + 1 <==> BlindRemoval(s, step, id) || Pushes(s, step, id)
  {
    var p, s' := step.p, Next(s, step);
    if !Applies(s, step) {
      assert s' == s;
    } else if step.event.Proceed? {
      assert s' == AfterCommand(s, p, step.now);
      CommandWeighs(s, p, step.now, id);
    } else if step.event.Dequeue? {
      PopWeighs(s, p, id);
      assert s' == AfterPop(s, p);
    } else {
      LocalWeighs(s, step, id);
    }
  }

  lemma CommandWeighs(s: State, p: Pid, now: Instant, id: Uuid)
    requires Inv(s)
    ensures var s', step := AfterCommand(s, p, now), Step(p, Proceed, now);
      && Weight(s', id) <= Weight(s, id) + 1
      && (Weight(s', id) == Weight(s, id) + 1 <==> BlindRemoval(s, step, id) || Pushes(s, step, id))
  {
    var pc := PcOf(s, p);
    var (st', pc') := Command(s.store, pc, now);
    assert PcKnown(s.store, pc);
    CommandEffect(s.store, pc, now);
    MoveWeighs(s, p, st', pc', LogCommand(s.log, pc), EffectOf(pc), id);
    TakesAndPuts(pc, id);
  }

  lemma TakesAndPuts(pc: Pc, id: Uuid)
    ensures EffectOf(pc) == Take(id) <==>
      (pc.Nack? && pc.act == NackRem && pc.task.taskId == id) || (pc.Rec? && pc.stage == RecRem && pc.id == id)
    ensures EffectOf(pc) == Put(id) && HoldOf(pc) == Enqueuing(id) <==> pc.Enq? && pc.at == EnqPush && pc.task.taskId == id
  {
  }

  lemma PopWeighs(s: State, p: Pid, id: Uuid)
    requires Inv(s) && PcOf(s, p).Idle?
    ensures Weight(AfterPop(s, p), id) <= Weight(s, id)
  {
    if s.store.pending != [] {
      var e := s.store.pending[|s.store.pending| - 1];
      assert e in s.store.pending;
      MoveWeighs(s, p, PopPush(s.store), DeqRead(e.id), AfterPop(s, p).log, Pop(e.id), id);
    }
  }

  lemma LocalWeighs(s: State, step: Step, id: Uuid)
    requires Applies(s, step)
    requires step.event.Crash? || step.event.Finish? || step.event.Enqueue? || step.event.Recover?
    ensures Weight(Next(s, step), id) <= Weight(s, id)
  {
    var p, s' := step.p, Next(s, step);
    var eff := if step.event.Crash? then LetGo
               else if step.event.Enqueue? then Begin(step.event.task.taskId) else Quiet;
    MoveWeighs(s, p, s.store, s'.procs[p], s'.log, eff, id);
    assert s' == State(s.store, s.procs[p := s'.procs[p]], s'.log);
  }

  // ---- Fresh ids ----

  predicate Fresh(s: State, step: Step) {
    step.event.Enqueue? ==> step.event.task.taskId !in s.log.started
  }

  ghost predicate FreshRun(steps: seq<Step>) {
    forall n :: 0 <= n < |steps| ==> Fresh(Run(INIT, steps[..n]), steps[n])
  }

  predicate EntriesEnqueued(list: seq<Entry>, log: Log) {
    forall e :: e in list && e.Ref? ==> e.id in log.enqueued
  }

  predicate StoreFresh(st: Store, log: Log) {
    EntriesEnqueued(st.pending, log) && EntriesEnqueued(st.processing, log) && EntriesEnqueued(st.dead, log)
  }

  /** Whatever a process is about to do with an id, the id was enqueued, or it is just being enqueued. */
  predicate PcFresh(pc: Pc, log: Log) {
    && (HoldOf(pc).Owning? || HoldOf(pc).Carrier? ==> HoldOf(pc).id in log.enqueued)
    && (HoldOf(pc).Enqueuing? ==> HoldOf(pc).id in log.started && HoldOf(pc).id !in log.enqueued)
    && EntriesEnqueued(Todo(pc), log)
  }

  ghost predicate AloneEnqueuing(s: State, p: Pid) {
    forall q :: q in s.procs && q != p && Holder(s, p).Enqueuing? ==> Holder(s, q) != Holder(s, p)
  }

  ghost predicate FreshInv(s: State) {
    && s.log.enqueued <= s.log.started.Keys
    && StoreFresh(s.store, s.log)
    && forall p :: p in s.procs ==> PcFresh(s.procs[p], s.log) && AloneEnqueuing(s, p)
  }

  lemma MoreEnqueued(pc: Pc, log: Log, log': Log)
    requires PcFresh(pc, log) && log.enqueued <= log'.enqueued && log.started.Keys <= log'.started.Keys
    requires HoldOf(pc).Enqueuing? ==> HoldOf(pc).id !in log'.enqueued
    ensures PcFresh(pc, log')
  {
  }

  /** A step of `p` that keeps its own part; the others keep theirs. */
  lemma MoveKeepsFresh(s: State, p: Pid, st': Store, pc': Pc, log': Log)
    requires FreshInv(s) && PcFresh(pc', log') && log'.enqueued <= log'.started.Keys
    requires s.log.enqueued <= log'.enqueued && s.log.started.Keys <= log'.started.Keys
    requires StoreFresh(st', log')
    requires forall id :: id in log'.enqueued && id !in s.log.enqueued ==> Holder(s, p) == Enqueuing(id)
    requires HoldOf(pc').Enqueuing? ==> HoldOf(pc') == Holder(s, p) || HoldOf(pc').id !in s.log.started
    ensures FreshInv(State(st', s.procs[p := pc'], log'))
  {
    var s' := State(st', s.procs[p := pc'], log');
    forall q | q in s'.procs ensures PcFresh(s'.procs[q], log') && AloneEnqueuing(s', q) {
      if q != p {
        assert PcFresh(s.procs[q], s.log) && AloneEnqueuing(s, q);
        MoreEnqueued(s.procs[q], s.log, log');
      } else {
        assert p in s.procs ==> AloneEnqueuing(s, p);
        assert forall r :: r in s.procs ==> PcFresh(s.procs[r], s.log);
      }
    }
  }

  lemma EffectKeepsEntries(st: Store, h: Hold, st': Store, h': Hold, eff: Effect, log: Log, log': Log)
    requires HasEffect(st, h, st', h', eff) && StoreFresh(st, log) && log.enqueued <= log'.enqueued
    requires eff.Put? ==> eff.id in log'.enqueued
    ensures StoreFresh(st', log')
  {
    if eff.Pop? {
      assert st.pending[|st.pending| - 1] in st.pending;
    }
  }

  /** A recovery only ever works off its snapshot. */
  lemma TodoShrinks(st: Store, pc: Pc, now: Instant, log: Log)
    requires EntriesEnqueued(Todo(pc), log)
    ensures EntriesEnqueued(Todo(Command(st, pc, now).1), log)
  {
    match pc
    case RecNext(rest, cutoff) =>
      RestEnqueued(rest, log);
      assert Command(st, pc, now).1 == RecNextCommand(st, rest, cutoff);
    case Rec(stage, id, rest, cutoff) =>
      RestEnqueued(Todo(pc), log);
      if stage == RecRead || stage == RecRem {
        assert Todo(pc)[1..] == rest;
      }
    case _ =>
      OnlyRecoveryHasTodo(st, pc, now);
  }

  lemma RestEnqueued(todo: seq<Entry>, log: Log)
    requires EntriesEnqueued(todo, log)
    ensures todo != [] ==> EntriesEnqueued(todo[1..], log) && (todo[0].Ref? ==> EntriesEnqueued([Ref(todo[0].id)] + todo[1..], log))
  {
    if todo != [] {
      assert todo == [todo[0]] + todo[1..];
    }
  }

  /** What a command takes up it owned, or found in its snapshot. */
  lemma TakesEnqueued(pc: Pc, log: Log)
    requires PcFresh(pc, log) && EffectOf(pc).Take?
    ensures EffectOf(pc).id in log.enqueued
  {
    if pc.Rec? {
      assert Todo(pc)[0] == Ref(pc.id);
    }
  }

  lemma CommandKeepsFresh(st: Store, pc: Pc, log: Log, now: Instant)
    requires PcKnown(st, pc) && PcFresh(pc, log) && log.enqueued <= log.started.Keys && StoreFresh(st, log)
    ensures var (st', pc') := Command(st, pc, now); var log' := LogCommand(log, pc);
      StoreFresh(st', log') && PcFresh(pc', log')
  {
    var (st', pc') := Command(st, pc, now);
    var log' := LogCommand(log, pc);
    CommandEffect(st, pc, now);
    CommandLogs(pc, log);
    EffectKeepsEntries(st, HoldOf(pc), st', HoldOf(pc'), EffectOf(pc), log, log');
    TodoShrinks(st, pc, now, log);
    if EffectOf(pc).Take? {
      TakesEnqueued(pc, log);
    }
    HoldKeepsFresh(st, HoldOf(pc), st', pc', EffectOf(pc), log, log');
  }

  /** The log of a command: the LPUSH of an enqueue is noted, nothing else changes. */
  lemma CommandLogs(pc: Pc, log: Log)
    requires PcFresh(pc, log)
    ensures var log' := LogCommand(log, pc); var eff := EffectOf(pc);
      && log'.started == log.started
      && log'.enqueued == (if eff.Put? && HoldOf(pc).Enqueuing? then log.enqueued + {eff.id} else log.enqueued)
      && (eff.Put? ==> eff.id in log'.enqueued)
      && !eff.Begin? && !eff.Pop?
  {
  }

  lemma HoldKeepsFresh(st: Store, h: Hold, st': Store, pc': Pc, eff: Effect, log: Log, log': Log)
    requires HasEffect(st, h, st', HoldOf(pc'), eff) && !eff.Begin? && !eff.Pop?
    requires log'.started == log.started && log.enqueued <= log'.enqueued && (!eff.Put? ==> log'.enqueued == log.enqueued)
    requires (h.Owning? || h.Carrier? ==> h.id in log.enqueued) && (eff.Take? ==> eff.id in log.enqueued)
    requires h.Enqueuing? ==> h.id in log.started && h.id !in log.enqueued
    requires EntriesEnqueued(Todo(pc'), log)
    ensures PcFresh(pc', log')
  {
  }

  lemma ProceedKeepsFresh(s: State, p: Pid, now: Instant)
    requires Inv(s) && FreshInv(s)
    ensures FreshInv(AfterCommand(s, p, now))
  {
    var pc := PcOf(s, p);
    var (st', pc') := Command(s.store, pc, now);
    assert PcKnown(s.store, pc) && PcFresh(pc, s.log);
    CommandKeepsFresh(s.store, pc, s.log, now);
    CommandEffect(s.store, pc, now);
    CommandLogs(pc, s.log);
    MoveKeepsFresh(s, p, st', pc', LogCommand(s.log, pc));
  }

  lemma PopKeepsFresh(s: State, p: Pid)
    requires Inv(s) && FreshInv(s) && PcOf(s, p).Idle?
    ensures FreshInv(AfterPop(s, p))
  {
    if s.store.pending != [] {
      var e := s.store.pending[|s.store.pending| - 1];
      assert e in s.store.pending && e.id in s.log.enqueued;
      MoveKeepsFresh(s, p, PopPush(s.store), DeqRead(e.id), AfterPop(s, p).log);
    }
  }

  lemma LocalKeepsFresh(s: State, step: Step)
    requires FreshInv(s) && Applies(s, step) && Fresh(s, step)
    requires step.event.Crash? || step.event.Finish? || step.event.Enqueue? || step.event.Recover?
    ensures FreshInv(Next(s, step))
  {
    var p, s' := step.p, Next(s, step);
    assert PcFresh(PcOf(s, p), s.log);
    MoveKeepsFresh(s, p, s.store, s'.procs[p], s'.log);
    assert s' == State(s.store, s.procs[p := s'.procs[p]], s'.log);
  }

  lemma StepKeepsFresh(s: State, step: Step)
    requires Inv(s) && FreshInv(s) && Fresh(s, step)
    ensures FreshInv(Next(s, step))
  {
    if !Applies(s, step) {
      assert Next(s, step) == s;
    } else if step.event.Proceed? {
      ProceedKeepsFresh(s, step.p, step.now);
      assert Next(s, step) == AfterCommand(s, step.p, step.now);
    } else if step.event.Dequeue? {
      PopKeepsFresh(s, step.p);
      assert Next(s, step) == AfterPop(s, step.p);
    } else {
      LocalKeepsFresh(s, step);
    }
  }

  lemma FreshPrefix(steps: seq<Step>)
    requires FreshRun(steps) && steps != []
    ensures FreshRun(steps[..|steps| - 1]) && Fresh(Run(INIT, steps[..|steps| - 1]), steps[|steps| - 1])
  {
    var before := steps[..|steps| - 1];
    forall n | 0 <= n < |before| ensures Fresh(Run(INIT, before[..n]), before[n]) {
      assert before[..n] == steps[..n];
    }
  }

  lemma {:induction false} RunKeepsFresh(steps: seq<Step>)
    requires FreshRun(steps)
    ensures FreshInv(Run(INIT, steps))
  {
    if steps != [] {
      FreshPrefix(steps);
      RunKeepsFresh(steps[..|steps| - 1]);
      RunKeepsInv(steps[..|steps| - 1]);
      StepKeepsFresh(Run(INIT, steps[..|steps| - 1]), steps[|steps| - 1]);
    }
  }

  // ---- The main results ----

  /** What is just being enqueued is nowhere yet. */
  lemma NewIsNowhere(s: State, p: Pid, id: Uuid)
    requires FreshInv(s) && Holder(s, p) == Enqueuing(id)
    ensures Weight(s, id) == 0
  {
    assert p in s.procs && PcFresh(s.procs[p], s.log);
    forall q ensures q !in Carriers(s.procs, id) {
      assert q in s.procs ==> PcFresh(s.procs[q], s.log);
    }
    assert Carriers(s.procs, id) == {};
    assert Ref(id) !in s.store.pending && Ref(id) !in s.store.processing && Ref(id) !in s.store.dead;
  }

  /**
   An id that is in at most one place comes to be in two at a step if and only if that step is
   the LREM of a nack or a recovery that finds no entry, while the id is listed or carried.
   */
  lemma SecondPlaceIffBlind(steps: seq<Step>, step: Step, id: Uuid)
    requires FreshRun(steps) && Weight(Run(INIT, steps), id) <= 1
    ensures var s := Run(INIT, steps);
      Weight(Next(s, step), id) > 1 <==> BlindRemoval(s, step, id) && (Listed(s.store, id) || Carrying(s, id))
  {
    var s := Run(INIT, steps);
    RunKeepsInv(steps);
    RunKeepsFresh(steps);
    StepWeighs(s, step, id);
    InSomePlace(s, id);
    if Pushes(s, step, id) {
      NewIsNowhere(s, step.p, id);
    }
  }

  /** Step `n` of the run is such an LREM, of an id that is in some place. */
  ghost predicate BlindAt(steps: seq<Step>, n: nat, id: Uuid)
    requires n < |steps|
  {
    BlindRemoval(Run(INIT, steps[..n]), steps[n], id) && Weight(Run(INIT, steps[..n]), id) > 0
  }

  /** After `n` steps of the run the id is in more than one place. */
  ghost predicate TwiceAt(steps: seq<Step>, n: nat, id: Uuid)
    requires n <= |steps|
  {
    Weight(Run(INIT, steps[..n]), id) > 1
  }

  lemma FreshTake(steps: seq<Step>, n: nat)
    requires FreshRun(steps) && n <= |steps|
    ensures FreshRun(steps[..n])
  {
    forall k | 0 <= k < n ensures Fresh(Run(INIT, steps[..n][..k]), steps[..n][k]) {
      assert steps[..n][..k] == steps[..k];
    }
  }

  lemma TwiceStep(steps: seq<Step>, n: nat, id: Uuid)
    requires FreshRun(steps) && n < |steps| && !TwiceAt(steps, n, id)
    ensures TwiceAt(steps, n + 1, id) <==> BlindAt(steps, n, id)
  {
    var before := steps[..n];
    FreshTake(steps, n);
    assert steps[..n + 1][..n] == before && steps[..n + 1][n] == steps[n];
    assert Run(INIT, steps[..n + 1]) == Next(Run(INIT, before), steps[n]);
    SecondPlaceIffBlind(before, steps[n], id);
    InSomePlace(Run(INIT, before), id);
  }

  lemma NowhereAtFirst(steps: seq<Step>, id: Uuid)
    ensures !TwiceAt(steps, 0, id)
  {
    assert steps[..0] == [] && Carriers(INIT.procs, id) == {};
  }

  /** A blind LREM of an id that is somewhere leaves it in two places. */
  lemma BlindMakesTwo(steps: seq<Step>, n: nat, id: Uuid)
    requires n < |steps| && BlindAt(steps, n, id)
    ensures TwiceAt(steps, n + 1, id)
  {
    var before := steps[..n];
    assert steps[..n + 1][..n] == before && steps[..n + 1][n] == steps[n];
    assert Run(INIT, steps[..n + 1]) == Next(Run(INIT, before), steps[n]);
    RunKeepsInv(before);
    StepWeighs(Run(INIT, before), steps[n], id);
  }

  /** A flag that only an event raises is up at some time if and only if the event happens at some time. */
  lemma {:induction false} FirstTime(flag: seq<bool>, event: seq<bool>)
    requires |flag| == |event| + 1 && !flag[0]
    requires forall i :: 0 <= i < |event| ==> (event[i] ==> flag[i + 1]) && (!flag[i] && flag[i + 1] ==> event[i])
    ensures true in flag <==> true in event
  {
    if event != [] {
      var n := |event| - 1;
      FirstTime(flag[..n + 1], event[..n]);
      assert flag == flag[..n + 1] + [flag[n + 1]] && event == event[..n] + [event[n]];
      if flag[n] {
        assert flag[..n + 1][n];
      }
    }
  }

  /** A run ever has the id in two places if and only if it has such an LREM. */
  lemma TwoPlacesIffBlind(steps: seq<Step>, id: Uuid)
    requires FreshRun(steps)
    ensures (exists n :: 0 <= n <= |steps| && TwiceAt(steps, n, id)) <==> exists n :: 0 <= n < |steps| && BlindAt(steps, n, id)
  {
    var twice := seq(|steps| + 1, n requires 0 <= n <= |steps| => TwiceAt(steps, n, id));
    var blind := seq(|steps|, n requires 0 <= n < |steps| => BlindAt(steps, n, id));
    NowhereAtFirst(steps, id);
    forall n | 0 <= n < |steps|
      ensures (blind[n] ==> twice[n + 1]) && (!twice[n] && twice[n + 1] ==> blind[n])
    {
      if blind[n] {
        BlindMakesTwo(steps, n, id);
      } else if !twice[n] {
        TwiceStep(steps, n, id);
      }
    }
    FirstTime(twice, blind);
    InSeq(twice);
    InSeq(blind);
    assert forall n :: 0 <= n < |twice| ==> twice[n] == TwiceAt(steps, n, id);
    assert forall n :: 0 <= n < |blind| ==> blind[n] == BlindAt(steps, n, id);
  }

  lemma InSeq(flags: seq<bool>)
    ensures true in flags <==> exists n :: 0 <= n < |flags| && flags[n]
  {
  }
}
