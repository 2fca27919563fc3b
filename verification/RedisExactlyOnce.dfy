/**
 Every unfinished id is in exactly one place, in every run in which recovery keeps away
 from live holders: no worker dequeues while a recovery runs, and a recovery starts only
 when no process holds a task and no other recovery runs. Processes may crash anywhere.
 `RedisTwoPlaces` says when exactly the property breaks without that discipline.
 */
module RedisExactlyOnce {
  import opened Commons
  import opened RedisStore
  import opened RedisProtocol
  import opened RedisNoLoss

  /** What a process has of an id: it is enqueueing it, owns its `processing` entry, or carries it. */
  datatype Hold = Free | Enqueuing(id: Uuid) | Owning(id: Uuid) | Carrier(id: Uuid)

  function HoldOf(pc: Pc): Hold {
    if Carried(pc).Some? then Carrier(Carried(pc).value)
    else
      match pc
      case Enq(_, t) => Enqueuing(t.taskId)
      case DeqRead(id) => Owning(id)
      case DeqMark(_, id, _) => Owning(id)
      case Working(t) => Owning(t.taskId)
      case Ack(phase, id) => if phase == AckRem then Owning(id) else Free
      case NackRead(id, _, _, _) => Owning(id)
      case Nack(act, t, _) => if act == NackRem then Owning(t.taskId) else Free
      case _ => Free
  }

  function Holder(s: State, p: Pid): Hold { HoldOf(PcOf(s, p)) }

  /** The snapshot entries a recovery has not dealt with. */
  function Todo(pc: Pc): seq<Entry> {
    match pc
    case RecNext(rest, _) => rest
    case Rec(stage, id, rest, _) => if stage == RecRead || stage == RecRem then [Ref(id)] + rest else rest
    case _ => []
  }

  // ---- The discipline ----

  ghost predicate NoRecovery(s: State) {
    forall p :: p in s.procs ==> !Recovering(s.procs[p])
  }

  ghost predicate NoOwner(s: State) {
    forall p :: p in s.procs ==> !HoldOf(s.procs[p]).Owning?
  }

  /** Task ids are fresh (v4 UUIDs), and recovery is exclusive. */
  ghost predicate Orderly(s: State, step: Step) {
    match step.event
    case Enqueue(t) => t.taskId !in s.log.started
    case Dequeue => NoRecovery(s)
    case Recover(_) => NoRecovery(s) && NoOwner(s)
    case _ => true
  }

  ghost predicate OrderlyRun(steps: seq<Step>) {
    forall n :: 0 <= n < |steps| ==> Orderly(Run(INIT, steps[..n]), steps[n])
  }

  // ---- The invariant ----

  /** What `h` implies for the copies of its id. */
  predicate HoldOk(st: Store, log: Log, h: Hold) {
    match h
    case Free => true
    case Enqueuing(id) => Copies(st, Ref(id)) == 0 && id in log.started && id !in log.enqueued && id !in log.dropped
    case Owning(id) => CopiesIn(st.processing, Ref(id)) == 1 && id in log.enqueued
    case Carrier(id) => Copies(st, Ref(id)) == 0 && id in log.enqueued && id !in log.dropped
  }

  /** The entries of `todo` are distinct, and each is once in `processing`. */
  predicate TodoOk(processing: seq<Entry>, todo: seq<Entry>) {
    forall e :: e in todo ==> CopiesIn(processing, e) == 1 && CopiesIn(todo, e) == 1
  }

  ghost predicate Unique(st: Store, log: Log) {
    && (forall id: Uuid :: Copies(st, Ref(id)) <= 1)
    && (forall id: Uuid :: Copies(st, Ref(id)) == 1 ==> id in log.enqueued && id !in log.dropped)
    && (forall id :: id in log.enqueued ==> id in log.started)
    && log.dropped <= log.enqueued
  }

  /** No other process holds the id of `p`; a recovering `p` meets no owner and no other recovery. */
  ghost predicate AloneAt(s: State, p: Pid) {
    forall q :: q in s.procs && q != p ==>
      && (!Holder(s, p).Free? && !HoldOf(s.procs[q]).Free? ==> Holder(s, p).id != HoldOf(s.procs[q]).id)
      && (Recovering(PcOf(s, p)) ==> !HoldOf(s.procs[q]).Owning? && !Recovering(s.procs[q]))
  }

  ghost predicate ProcOk(s: State, p: Pid) {
    && HoldOk(s.store, s.log, Holder(s, p))
    && TodoOk(s.store.processing, Todo(PcOf(s, p)))
    && AloneAt(s, p)
  }

  ghost predicate Placed(s: State, id: Uuid) {
    id in s.log.enqueued && id !in s.log.finished && id !in s.log.dropped ==>
      Copies(s.store, Ref(id)) == 1 || Carrying(s, id)
  }

  ghost predicate OnceInv(s: State) {
    && Unique(s.store, s.log)
    && (forall p :: p in s.procs ==> ProcOk(s, p))
    && (forall id :: Placed(s, id))
  }

  // ---- What one step does to the lists and to the mover's hold ----

  datatype Effect =
    | Quiet                  // lists and hold stay
    | Begin(id: Uuid)        // Free -> Enqueuing
    | Release(id: Uuid)      // Owning -> Free, entry removed
    | Take(id: Uuid)         // Owning or Free -> Carrier, entry removed
    | Put(id: Uuid)          // Carrier or Enqueuing -> Free, entry pushed
    | Pop(id: Uuid)          // Free -> Owning, entry moved
    | LetGo                  // a crash: any hold -> Free

  predicate SameLists(st: Store, st': Store) {
    st'.pending == st.pending && st'.processing == st.processing && st'.dead == st.dead
  }

  predicate HasEffect(st: Store, h: Hold, st': Store, h': Hold, eff: Effect) {
    match eff
    case Quiet => SameLists(st, st') && h' == h
    case Begin(id) => SameLists(st, st') && h == Free && h' == Enqueuing(id)
    case Release(id) => SameLists(RemProcessing(st, Ref(id)), st') && h == Owning(id) && h' == Free
    case Take(id) => SameLists(RemProcessing(st, Ref(id)), st') && (h == Owning(id) || h == Free) && h' == Carrier(id)
    case Put(id) =>
      (SameLists(PushPending(st, Ref(id)), st') || SameLists(PushDead(st, Ref(id)), st'))
      && (h == Enqueuing(id) || h == Carrier(id)) && h' == Free
    case Pop(id) => st.pending != [] && SameLists(PopPush(st), st') && h == Free && h' == Owning(id)
                    && st.pending[|st.pending| - 1] == Ref(id)
    case LetGo => SameLists(st, st') && h' == Free
  }

  function EffectOf(pc: Pc): Effect {
    match pc
    case Enq(at, t) => if at == EnqPush then Put(t.taskId) else Quiet
    case Ack(phase, id) => if phase == AckRem then Release(id) else Quiet
    case Nack(act, t, _) =>
      if act == NackRem then Take(t.taskId)
      else if act == NackPush || act == DeadPush then Put(t.taskId)
      else Quiet
    case Rec(stage, id, _, _) => if stage == RecRem then Take(id) else if stage == RecPush then Put(id) else Quiet
    case _ => Quiet
  }

  lemma CommandEffect(st: Store, pc: Pc, now: Instant)
    requires PcKnown(st, pc)
    ensures var (st', pc') := Command(st, pc, now); HasEffect(st, HoldOf(pc), st', HoldOf(pc'), EffectOf(pc))
  {
  }

  lemma TodoTail(processing: seq<Entry>, todo: seq<Entry>)
    requires todo != [] && TodoOk(processing, todo)
    ensures TodoOk(processing, todo[1..]) && TodoOk(LRem(processing, todo[0]), todo[1..])
  {
    assert todo == [todo[0]] + todo[1..];
    forall e | e in todo[1..] ensures e != todo[0] && CopiesIn(todo[1..], e) == 1 {
      assert CopiesIn(todo, e) == 1;
    }
  }

  lemma RecTodo(st: Store, stage: RecAt, id: Uuid, rest: seq<Entry>, cutoff: Instant, now: Instant)
    requires TodoOk(st.processing, Todo(Rec(stage, id, rest, cutoff)))
    ensures var (st', pc') := RecCommand(st, stage, id, rest, cutoff, now); TodoOk(st'.processing, Todo(pc'))
  {
    if stage == RecRead || stage == RecRem {
      var todo := [Ref(id)] + rest;
      assert todo[1..] == rest && todo[0] == Ref(id);
      TodoTail(st.processing, todo);
    }
  }

  lemma RecNextTodo(st: Store, rest: seq<Entry>, cutoff: Instant)
    requires TodoOk(st.processing, rest)
    ensures TodoOk(st.processing, Todo(RecNextCommand(st, rest, cutoff)))
  {
    if rest != [] {
      TodoTail(st.processing, rest);
      if rest[0].Ref? {
        assert [Ref(rest[0].id)] + rest[1..] == rest;
      }
    }
  }

  /** A recovery's remaining snapshot stays a duplicate-free part of the processing list. */
  lemma CommandTodo(st: Store, pc: Pc, now: Instant)
    requires Recovering(pc) && TodoOk(st.processing, Todo(pc))
    ensures var (st', pc') := Command(st, pc, now); TodoOk(st'.processing, Todo(pc'))
  {
    match pc
    case RecNext(rest, cutoff) =>
      RecNextTodo(st, rest, cutoff);
      assert Command(st, pc, now) == (st, RecNextCommand(st, rest, cutoff));
    case Rec(stage, id, rest, cutoff) =>
      RecTodo(st, stage, id, rest, cutoff, now);
      assert Command(st, pc, now) == RecCommand(st, stage, id, rest, cutoff, now);
  }

  lemma OnlyRecoveryHasTodo(st: Store, pc: Pc, now: Instant)
    requires !Recovering(pc)
    ensures !Recovering(Command(st, pc, now).1)
  {
  }

  // ---- One step keeps the invariant ----

  /** How many copies of `x` the step adds to `processing`, and to the three lists together. */
  lemma EffectOnCopies(st: Store, h: Hold, st': Store, h': Hold, eff: Effect, x: Uuid)
    requires HasEffect(st, h, st', h', eff)
    ensures eff.Quiet? || eff.Begin? || eff.LetGo? ==> SameLists(st, st')
    ensures eff.Put? ==>
      && st'.processing == st.processing
      && Copies(st', Ref(x)) == Copies(st, Ref(x)) + (if x == eff.id then 1 else 0)
    ensures eff.Pop? ==>
      && Copies(st', Ref(x)) == Copies(st, Ref(x)) && CopiesIn(st.pending, Ref(eff.id)) > 0
      && CopiesIn(st'.processing, Ref(x)) == CopiesIn(st.processing, Ref(x)) + (if x == eff.id then 1 else 0)
    ensures eff.Release? || eff.Take? ==>
      var gone := if x == eff.id && CopiesIn(st.processing, Ref(x)) > 0 then 1 else 0;
      && CopiesIn(st'.processing, Ref(x)) == CopiesIn(st.processing, Ref(x)) - gone
      && Copies(st', Ref(x)) == Copies(st, Ref(x)) - gone
  {
    if eff.Pop? {
      PopMovesOne(st, Ref(x));
      PopMovesOne(st, Ref(eff.id));
    }
  }

  /** What the log must say about a step with effect `eff`, and what allows the step. */
  ghost predicate Allowed(s: State, p: Pid, pc': Pc, log': Log, eff: Effect) {
    var h := Holder(s, p);
    && LogShape(s.log, h, log', eff)
    && (eff.Take? && h.Free? ==> Recovering(PcOf(s, p)) && CopiesIn(s.store.processing, Ref(eff.id)) == 1)
    && (eff.Pop? ==> NoRecovery(s))
    && (Recovering(pc') && !Recovering(PcOf(s, p)) ==> NoRecovery(s) && NoOwner(s) && !HoldOf(pc').Owning?)
  }

  predicate LogShape(log: Log, h: Hold, log': Log, eff: Effect) {
    && log'.started.Keys == (if eff.Begin? then log.started.Keys + {eff.id} else log.started.Keys)
    && log'.enqueued == (if eff.Put? && h.Enqueuing? then log.enqueued + {eff.id} else log.enqueued)
    && log'.dropped == (if eff.LetGo? && h.Carrier? then log.dropped + {h.id} else log.dropped)
    && log.finished <= log'.finished
    && (eff.Begin? ==> eff.id !in log.started)
    && (eff.Release? ==> eff.id in log'.finished)
  }

  ghost predicate StepShape(s: State, p: Pid, st': Store, pc': Pc, log': Log, eff: Effect) {
    && OnceInv(s)
    && HasEffect(s.store, Holder(s, p), st', HoldOf(pc'), eff)
    && Allowed(s, p, pc', log', eff)
    && TodoOk(st'.processing, Todo(pc'))
  }

  lemma StaysUnique(st: Store, log: Log, h: Hold, st': Store, h': Hold, log': Log, eff: Effect, x: Uuid)
    requires HasEffect(st, h, st', h', eff) && HoldOk(st, log, h) && LogShape(log, h, log', eff)
    requires Copies(st, Ref(x)) <= 1 && (Copies(st, Ref(x)) == 1 ==> x in log.enqueued && x !in log.dropped)
    ensures Copies(st', Ref(x)) <= 1 && (Copies(st', Ref(x)) == 1 ==> x in log'.enqueued && x !in log'.dropped)
  {
    EffectOnCopies(st, h, st', h', eff, x);
  }

  lemma KeepsUniqueAt(s: State, p: Pid, st': Store, pc': Pc, log': Log, eff: Effect, x: Uuid)
    requires StepShape(s, p, st', pc', log', eff)
    ensures Copies(st', Ref(x)) <= 1
    ensures Copies(st', Ref(x)) == 1 ==> x in log'.enqueued && x !in log'.dropped
  {
    var h := Holder(s, p);
    assert h.Free? || ProcOk(s, p);
    assert Copies(s.store, Ref(x)) <= 1;
    StaysUnique(s.store, s.log, h, st', HoldOf(pc'), log', eff, x);
  }

  lemma KeepsUnique(s: State, p: Pid, st': Store, pc': Pc, log': Log, eff: Effect)
    requires StepShape(s, p, st', pc', log', eff)
    ensures Unique(st', log')
  {
    forall x: Uuid
      ensures Copies(st', Ref(x)) <= 1
      ensures Copies(st', Ref(x)) == 1 ==> x in log'.enqueued && x !in log'.dropped
    {
      KeepsUniqueAt(s, p, st', pc', log', eff, x);
    }
    KeepsLogOrder(s, p, st', pc', log', eff);
  }

  lemma KeepsLogOrder(s: State, p: Pid, st': Store, pc': Pc, log': Log, eff: Effect)
    requires StepShape(s, p, st', pc', log', eff)
    ensures forall id :: id in log'.enqueued ==> id in log'.started
    ensures log'.dropped <= log'.enqueued
  {
    assert Holder(s, p).Free? || ProcOk(s, p);
    assert Unique(s.store, s.log);
    assert s.log.started.Keys <= log'.started.Keys;
  }

  /** The new hold of the mover, from the copies of its id alone. */
  lemma NewHold(st: Store, log: Log, h: Hold, st': Store, h': Hold, log': Log, eff: Effect)
    requires HasEffect(st, h, st', h', eff) && HoldOk(st, log, h) && LogShape(log, h, log', eff) && !h'.Free?
    requires Copies(st, Ref(h'.id)) <= 1
    requires Copies(st, Ref(h'.id)) == 1 ==> h'.id in log.enqueued && h'.id !in log.dropped
    requires h'.id in log.enqueued || h'.id in log.dropped ==> h'.id in log.started
    requires eff.Take? && h.Free? ==> CopiesIn(st.processing, Ref(eff.id)) == 1
    ensures HoldOk(st', log', h')
  {
    EffectOnCopies(st, h, st', h', eff, h'.id);
  }

  lemma KeepsMoverHold(s: State, p: Pid, st': Store, pc': Pc, log': Log, eff: Effect)
    requires StepShape(s, p, st', pc', log', eff)
    ensures HoldOk(st', log', HoldOf(pc'))
  {
    var h, h' := Holder(s, p), HoldOf(pc');
    assert h.Free? || ProcOk(s, p);
    if !h'.Free? {
      assert Copies(s.store, Ref(h'.id)) <= 1;
      assert h'.id in s.log.dropped ==> h'.id in s.log.enqueued;
      NewHold(s.store, s.log, h, st', h', log', eff);
    }
  }

  /** The mover keeps the rule that a recovering process owns nothing. */
  lemma RecoveringOwnsNothing(pc: Pc)
    ensures Recovering(pc) ==> !HoldOf(pc).Owning?
  {
  }

  /** Two holds of different ids: a step of the first does not turn to the id of the second. */
  lemma ApartFrom(st: Store, log: Log, h: Hold, st': Store, h': Hold, eff: Effect, other: Hold)
    requires HasEffect(st, h, st', h', eff) && HoldOk(st, log, other) && !other.Free?
    requires (h.Free? || h.id != other.id) && Copies(st, Ref(other.id)) <= 1 && other.id in log.started
    requires eff.Begin? ==> eff.id !in log.started
    requires eff.Take? && h.Free? ==> !other.Owning? && CopiesIn(st.processing, Ref(eff.id)) == 1
    ensures !eff.Quiet? && !eff.LetGo? ==> other.id != eff.id
    ensures !h'.Free? ==> other.id != h'.id
  {
    if eff.Pop? {
      PopMovesOne(st, Ref(eff.id));
    }
  }

  /** No other process holds the id of the step. */
  lemma OthersHoldOthers(s: State, p: Pid, st': Store, pc': Pc, log': Log, eff: Effect, q: Pid)
    requires StepShape(s, p, st', pc', log', eff)
    requires q in s.procs && q != p && !HoldOf(s.procs[q]).Free?
    ensures !eff.Quiet? && !eff.LetGo? ==> HoldOf(s.procs[q]).id != eff.id
    ensures !HoldOf(pc').Free? ==> HoldOf(s.procs[q]).id != HoldOf(pc').id
  {
    var h := Holder(s, p);
    var other := HoldOf(s.procs[q]);
    assert ProcOk(s, q);
    assert h.Free? || (p in s.procs && other.id != h.id);
    assert Copies(s.store, Ref(other.id)) <= 1;
    if eff.Take? && h.Free? {
      assert p in s.procs && ProcOk(s, p);
    }
    ApartFrom(s.store, s.log, h, st', HoldOf(pc'), eff, other);
  }

  lemma OtherHold(st: Store, log: Log, h: Hold, st': Store, h': Hold, log': Log, eff: Effect, other: Hold)
    requires HasEffect(st, h, st', h', eff) && LogShape(log, h, log', eff) && HoldOk(st, log, other) && !other.Free?
    requires (h.Free? || h.id != other.id) && (!eff.Quiet? && !eff.LetGo? ==> other.id != eff.id)
    ensures HoldOk(st', log', other)
  {
    EffectOnCopies(st, h, st', h', eff, other.id);
  }

  lemma KeepsOtherHolds(s: State, p: Pid, st': Store, pc': Pc, log': Log, eff: Effect, q: Pid)
    requires StepShape(s, p, st', pc', log', eff)
    requires q in s.procs && q != p
    ensures HoldOk(st', log', HoldOf(s.procs[q]))
  {
    var other := HoldOf(s.procs[q]);
    assert ProcOk(s, q);
    if !other.Free? {
      OthersHoldOthers(s, p, st', pc', log', eff, q);
      var h := Holder(s, p);
      assert h.Free? || (p in s.procs && other.id != h.id);
      OtherHold(s.store, s.log, h, st', HoldOf(pc'), log', eff, other);
    }
  }

  lemma ProcessingStays(st: Store, h: Hold, st': Store, h': Hold, eff: Effect)
    requires HasEffect(st, h, st', h', eff) && !h.Owning? && !eff.Pop? && !eff.Take?
    ensures st'.processing == st.processing
  {
  }

  lemma KeepsOtherTodos(s: State, p: Pid, st': Store, pc': Pc, log': Log, eff: Effect, q: Pid)
    requires StepShape(s, p, st', pc', log', eff)
    requires q in s.procs && q != p
    ensures TodoOk(st'.processing, Todo(s.procs[q]))
  {
    assert ProcOk(s, q);
    if Recovering(s.procs[q]) {
      assert p in s.procs ==> !HoldOf(s.procs[p]).Owning? && !Recovering(s.procs[p]);
      ProcessingStays(s.store, Holder(s, p), st', HoldOf(pc'), eff);
    }
  }

  /** The pairs of the mover and another process. */
  lemma KeepsApart(s: State, p: Pid, st': Store, pc': Pc, log': Log, eff: Effect, q: Pid)
    requires StepShape(s, p, st', pc', log', eff)
    requires q in s.procs && q != p
    ensures !HoldOf(s.procs[q]).Free? && !HoldOf(pc').Free? ==> HoldOf(s.procs[q]).id != HoldOf(pc').id
    ensures Recovering(pc') ==> !HoldOf(s.procs[q]).Owning? && !Recovering(s.procs[q])
    ensures Recovering(s.procs[q]) ==> !HoldOf(pc').Owning? && !Recovering(pc')
  {
    if !HoldOf(s.procs[q]).Free? {
      OthersHoldOthers(s, p, st', pc', log', eff, q);
    }
    assert ProcOk(s, q);
    assert p in s.procs ==> ProcOk(s, p);
  }

  lemma KeepsMover(s: State, p: Pid, st': Store, pc': Pc, log': Log, eff: Effect)
    requires StepShape(s, p, st', pc', log', eff)
    ensures ProcOk(State(st', s.procs[p := pc'], log'), p)
  {
    KeepsMoverHold(s, p, st', pc', log', eff);
    forall r | r in s.procs && r != p
      ensures !HoldOf(s.procs[r]).Free? && !HoldOf(pc').Free? ==> HoldOf(s.procs[r]).id != HoldOf(pc').id
      ensures Recovering(pc') ==> !HoldOf(s.procs[r]).Owning? && !Recovering(s.procs[r])
    {
      KeepsApart(s, p, st', pc', log', eff, r);
    }
  }

  lemma KeepsOther(s: State, p: Pid, st': Store, pc': Pc, log': Log, eff: Effect, q: Pid)
    requires StepShape(s, p, st', pc', log', eff)
    requires q in s.procs && q != p
    ensures ProcOk(State(st', s.procs[p := pc'], log'), q)
  {
    KeepsOtherHolds(s, p, st', pc', log', eff, q);
    KeepsOtherTodos(s, p, st', pc', log', eff, q);
    KeepsApart(s, p, st', pc', log', eff, q);
    assert ProcOk(s, q);
  }

  /** An unfinished id without copies is carried by the mover, or had no copies before. */
  lemma NoCopiesNow(st: Store, log: Log, h: Hold, st': Store, h': Hold, log': Log, eff: Effect, x: Uuid)
    requires HasEffect(st, h, st', h', eff) && HoldOk(st, log, h) && LogShape(log, h, log', eff)
    requires Copies(st, Ref(x)) <= 1 && Copies(st', Ref(x)) == 0
    requires x in log'.enqueued && x !in log'.finished && x !in log'.dropped
    ensures h' == Carrier(x)
            || (x in log.enqueued && x !in log.finished && x !in log.dropped && Copies(st, Ref(x)) == 0 && h != Carrier(x))
  {
    EffectOnCopies(st, h, st', h', eff, x);
  }

  lemma MoverOrStill(s: State, p: Pid, st': Store, pc': Pc, log': Log, eff: Effect, x: Uuid)
    requires StepShape(s, p, st', pc', log', eff)
    requires x in log'.enqueued && x !in log'.finished && x !in log'.dropped && Copies(st', Ref(x)) != 1
    ensures HoldOf(pc') == Carrier(x) || (Carrying(s, x) && Holder(s, p) != Carrier(x))
  {
    KeepsUniqueAt(s, p, st', pc', log', eff, x);
    var h := Holder(s, p);
    assert h.Free? || ProcOk(s, p);
    assert Copies(s.store, Ref(x)) <= 1;
    NoCopiesNow(s.store, s.log, h, st', HoldOf(pc'), log', eff, x);
    assert Placed(s, x);
  }

  lemma StillCarrying(s: State, p: Pid, st': Store, pc': Pc, log': Log, x: Uuid)
    requires HoldOf(pc') == Carrier(x) || (Carrying(s, x) && Holder(s, p) != Carrier(x))
    ensures Carrying(State(st', s.procs[p := pc'], log'), x)
  {
    var s' := State(st', s.procs[p := pc'], log');
    if HoldOf(pc') == Carrier(x) {
      assert p in s'.procs && Carried(s'.procs[p]) == Some(x);
    } else {
      var q :| q in s.procs && Carried(s.procs[q]) == Some(x);
      assert q in s'.procs && s'.procs[q] == s.procs[q];
    }
  }

  lemma KeepsPlaced(s: State, p: Pid, st': Store, pc': Pc, log': Log, eff: Effect, x: Uuid)
    requires StepShape(s, p, st', pc', log', eff)
    ensures Placed(State(st', s.procs[p := pc'], log'), x)
  {
    if x in log'.enqueued && x !in log'.finished && x !in log'.dropped && Copies(st', Ref(x)) != 1 {
      MoverOrStill(s, p, st', pc', log', eff, x);
      StillCarrying(s, p, st', pc', log', x);
    }
  }

  lemma ShapeKeepsOnce(s: State, p: Pid, st': Store, pc': Pc, log': Log, eff: Effect)
    requires StepShape(s, p, st', pc', log', eff)
    ensures OnceInv(State(st', s.procs[p := pc'], log'))
  {
    var s' := State(st', s.procs[p := pc'], log');
    KeepsUnique(s, p, st', pc', log', eff);
    forall q | q in s'.procs ensures ProcOk(s', q) {
      if q == p {
        KeepsMover(s, p, st', pc', log', eff);
      } else {
        KeepsOther(s, p, st', pc', log', eff, q);
      }
    }
    forall x ensures Placed(s', x) {
      KeepsPlaced(s, p, st', pc', log', eff, x);
    }
  }

  lemma ProceedKeepsOnce(s: State, p: Pid, now: Instant)
    requires Inv(s) && AcksFinished(s) && OnceInv(s)
    ensures OnceInv(AfterCommand(s, p, now))
  {
    var pc := PcOf(s, p);
    var (st', pc') := Command(s.store, pc, now);
    assert PcKnown(s.store, pc) && (pc.Idle? || ProcOk(s, p));
    CommandEffect(s.store, pc, now);
    if Recovering(pc) {
      CommandTodo(s.store, pc, now);
    } else {
      OnlyRecoveryHasTodo(s.store, pc, now);
    }
    ProceedAllowed(s, p, pc');
    ShapeKeepsOnce(s, p, st', pc', LogCommand(s.log, pc), EffectOf(pc));
  }

  lemma ProceedAllowed(s: State, p: Pid, pc': Pc)
    requires AcksFinished(s) && PcKnown(s.store, PcOf(s, p)) && TodoOk(s.store.processing, Todo(PcOf(s, p)))
    requires Recovering(pc') ==> Recovering(PcOf(s, p))
    ensures Allowed(s, p, pc', LogCommand(s.log, PcOf(s, p)), EffectOf(PcOf(s, p)))
  {
    var pc := PcOf(s, p);
    if pc.Rec? && pc.stage == RecRem {
      assert Todo(pc)[0] == Ref(pc.id);
    }
  }

  lemma PopKeepsOnce(s: State, p: Pid)
    requires Inv(s) && OnceInv(s) && PcOf(s, p).Idle? && NoRecovery(s)
    ensures OnceInv(AfterPop(s, p))
  {
    if s.store.pending != [] {
      var e := s.store.pending[|s.store.pending| - 1];
      assert e in s.store.pending;
      ShapeKeepsOnce(s, p, PopPush(s.store), DeqRead(e.id), AfterPop(s, p).log, Pop(e.id));
    }
  }

  /** The snapshot of a recovery is duplicate-free, because no entry occurs twice. */
  lemma RecoverKeepsOnce(s: State, p: Pid, cutoff: Instant)
    requires Inv(s) && OnceInv(s) && PcOf(s, p).Idle? && NoRecovery(s) && NoOwner(s)
    ensures OnceInv(AfterRecover(s, p, cutoff))
  {
    var processing := s.store.processing;
    forall e | e in processing ensures CopiesIn(processing, e) == 1 {
      assert e == Ref(e.id) && Copies(s.store, Ref(e.id)) <= 1;
    }
    ShapeKeepsOnce(s, p, s.store, RecNext(processing, cutoff), s.log, Quiet);
  }

  lemma CrashKeepsOnce(s: State, p: Pid)
    requires OnceInv(s)
    ensures OnceInv(AfterCrash(s, p))
  {
    ShapeKeepsOnce(s, p, s.store, Idle, AfterCrash(s, p).log, LetGo);
  }

  lemma EnqueueKeepsOnce(s: State, p: Pid, t: Task)
    requires OnceInv(s) && PcOf(s, p).Idle? && t.taskId !in s.log.started
    ensures OnceInv(AfterEnqueue(s, p, t))
  {
    ShapeKeepsOnce(s, p, s.store, Enq(EnqData, t), AfterEnqueue(s, p, t).log, Begin(t.taskId));
  }

  lemma FinishKeepsOnce(s: State, p: Pid, o: Outcome)
    requires OnceInv(s) && PcOf(s, p).Working?
    ensures OnceInv(AfterFinish(s, p, o))
  {
    var s' := AfterFinish(s, p, o);
    ShapeKeepsOnce(s, p, s.store, s'.procs[p], s'.log, Quiet);
  }

  lemma StepKeepsOnce(s: State, step: Step)
    requires Inv(s) && AcksFinished(s) && OnceInv(s) && Orderly(s, step)
    ensures OnceInv(Next(s, step))
  {
    var p := step.p;
    if !Applies(s, step) {
      assert Next(s, step) == s;
    } else if step.event.Proceed? {
      ProceedKeepsOnce(s, p, step.now);
      assert Next(s, step) == AfterCommand(s, p, step.now);
    } else if step.event.Dequeue? {
      PopKeepsOnce(s, p);
      assert Next(s, step) == AfterPop(s, p);
    } else if step.event.Recover? {
      RecoverKeepsOnce(s, p, step.now - step.event.timeout);
      assert Next(s, step) == AfterRecover(s, p, step.now - step.event.timeout);
    } else if step.event.Crash? {
      CrashKeepsOnce(s, p);
      assert Next(s, step) == AfterCrash(s, p);
    } else if step.event.Enqueue? {
      EnqueueKeepsOnce(s, p, step.event.task);
      assert Next(s, step) == AfterEnqueue(s, p, step.event.task);
    } else {
      FinishKeepsOnce(s, p, step.event.outcome);
      assert Next(s, step) == AfterFinish(s, p, step.event.outcome);
    }
  }

  lemma OrderlyPrefix(steps: seq<Step>)
    requires OrderlyRun(steps) && steps != []
    ensures OrderlyRun(steps[..|steps| - 1]) && Orderly(Run(INIT, steps[..|steps| - 1]), steps[|steps| - 1])
  {
    var before := steps[..|steps| - 1];
    forall n | 0 <= n < |before| ensures Orderly(Run(INIT, before[..n]), before[n]) {
      assert before[..n] == steps[..n];
    }
  }

  lemma {:induction false} RunKeepsOnce(steps: seq<Step>)
    requires OrderlyRun(steps)
    ensures OnceInv(Run(INIT, steps))
  {
    if steps != [] {
      var n := |steps| - 1;
      OrderlyPrefix(steps);
      RunKeepsOnce(steps[..n]);
      RunKeepsInv(steps[..n]);
      StepKeepsOnce(Run(INIT, steps[..n]), steps[n]);
    }
  }

  /** The number of places an id is in: copies in the lists, and one if a process carries it. */
  ghost function Places(s: State, id: Uuid): nat {
    Copies(s.store, Ref(id)) + (if Carrying(s, id) then 1 else 0)
  }

  /**
   In every orderly run: an enqueued, unfinished id is in exactly one place unless it was
   dropped, and then it is nowhere; no id is ever in two places; no two processes own or
   carry the same id.
   */
  lemma ExactlyOnePlace(steps: seq<Step>, id: Uuid)
    requires OrderlyRun(steps)
    ensures var s := Run(INIT, steps);
      && (id in s.log.enqueued && id !in s.log.finished ==> Places(s, id) == if id in s.log.dropped then 0 else 1)
      && Places(s, id) <= 1
      && (forall p, q :: p in s.procs && q in s.procs && p != q && !Holder(s, p).Free? && !Holder(s, q).Free? ==>
            Holder(s, p).id != Holder(s, q).id)
  {
    RunKeepsOnce(steps);
    var s := Run(INIT, steps);
    assert Copies(s.store, Ref(id)) <= 1;
    assert Placed(s, id);
    if Carrying(s, id) {
      var p :| p in s.procs && Carried(s.procs[p]) == Some(id);
      assert ProcOk(s, p);
    }
    forall p, q | p in s.procs && q in s.procs && p != q && !Holder(s, p).Free? && !Holder(s, q).Free?
      ensures Holder(s, p).id != Holder(s, q).id
    {
      assert ProcOk(s, p);
    }
  }
}
