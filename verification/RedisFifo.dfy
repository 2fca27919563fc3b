/**
 The pending list is first in, first out: in every run, whatever overlaps and whoever
 crashes, ids are dequeued in the order in which they were pushed on it, by enqueues, retries
 and recoveries alike.
 */
module RedisFifo {
  import opened Commons
  import opened RedisStore
  import opened RedisProtocol
  import opened RedisNoLoss

  /** The id that this command of `pc` pushes on the pending list. */
  function Pushes(pc: Pc): Option<Uuid> {
    match pc
    case Enq(at, t) => if at == EnqPush then Some(t.taskId) else None
    case Nack(act, t, _) => if act == NackPush then Some(t.taskId) else None
    case Rec(stage, id, _, _) => if stage == RecPush then Some(id) else None
    case _ => None
  }

  /** All ids pushed, in order. */
  function Pushed(steps: seq<Step>): seq<Uuid>
    decreases |steps|
  {
    if steps == [] then []
    else
      var before, step := steps[..|steps| - 1], steps[|steps| - 1];
      var id := if step.event.Proceed? then Pushes(PcOf(Run(INIT, before), step.p)) else None;
      if id.Some? then Pushed(before) + [id.value] else Pushed(before)
  }

  /** The id that a dequeue hands to its process. */
  function Takes(s: State, step: Step): Option<Uuid> {
    if step.event.Dequeue? && PcOf(s, step.p).Idle? && PcOf(Next(s, step), step.p).DeqRead?
    then Some(PcOf(Next(s, step), step.p).id) else None
  }

  /** All ids dequeued, in order. */
  function Taken(steps: seq<Step>): seq<Uuid>
    decreases |steps|
  {
    if steps == [] then []
    else
      var before, step := steps[..|steps| - 1], steps[|steps| - 1];
      var id := Takes(Run(INIT, before), step);
      if id.Some? then Taken(before) + [id.value] else Taken(before)
  }

  /** The ids of a list, from its right end to its left end. */
  function Waiting(list: seq<Entry>): seq<Uuid> {
    if list == [] then []
    else if list[0].Ref? then Waiting(list[1..]) + [list[0].id] else Waiting(list[1..])
  }

  lemma {:induction false} WaitingLast(list: seq<Entry>, e: Entry)
    ensures Waiting(list + [e]) == if e.Ref? then [e.id] + Waiting(list) else Waiting(list)
  {
    if list == [] {
      assert list + [e] == [e] && [e][1..] == [];
    } else {
      WaitingLast(list[1..], e);
      assert (list + [e])[1..] == list[1..] + [e];
    }
  }

  lemma CommandPushes(st: Store, pc: Pc, now: Instant)
    ensures Command(st, pc, now).0.pending ==
      if Pushes(pc).Some? then [Ref(Pushes(pc).value)] + st.pending else st.pending
  {
  }

  lemma ProceedPushes(s: State, p: Pid, now: Instant)
    ensures var id := Pushes(PcOf(s, p));
      Waiting(AfterCommand(s, p, now).store.pending) ==
        if id.Some? then Waiting(s.store.pending) + [id.value] else Waiting(s.store.pending)
  {
    CommandPushes(s.store, PcOf(s, p), now);
    var st' := Command(s.store, PcOf(s, p), now).0;
    if Pushes(PcOf(s, p)).Some? {
      assert st'.pending[1..] == s.store.pending;
    }
  }

  lemma DequeueTakes(s: State, step: Step)
    requires StoreKnown(s.store) && step.event.Dequeue?
    ensures var id := Takes(s, step); var rest := Waiting(Next(s, step).store.pending);
      Waiting(s.store.pending) == if id.Some? then [id.value] + rest else rest
  {
    if PcOf(s, step.p).Idle? && s.store.pending != [] {
      var last := |s.store.pending| - 1;
      var e := s.store.pending[last];
      assert e in s.store.pending;
      assert s.store.pending == s.store.pending[..last] + [e];
      WaitingLast(s.store.pending[..last], e);
      assert Next(s, step) == AfterPop(s, step.p);
    }
  }

  lemma LocalStepsWait(s: State, step: Step)
    requires !step.event.Proceed? && !step.event.Dequeue?
    ensures Next(s, step).store == s.store && Takes(s, step) == None
  {
  }

  /** What was dequeued and what still waits, in this order, is what was pushed. */
  lemma {:induction false} FirstInFirstOut(steps: seq<Step>)
    ensures Pushed(steps) == Taken(steps) + Waiting(Run(INIT, steps).store.pending)
    decreases |steps|
  {
    if steps != [] {
      var before, step := steps[..|steps| - 1], steps[|steps| - 1];
      var s := Run(INIT, before);
      FirstInFirstOut(before);
      RunKeepsInv(before);
      if step.event.Proceed? {
        ProceedPushes(s, step.p, step.now);
        assert Next(s, step) == AfterCommand(s, step.p, step.now);
        Regroup(Taken(before), Waiting(s.store.pending), Pushes(PcOf(s, step.p)));
      } else if step.event.Dequeue? {
        DequeueTakes(s, step);
        Shift(Taken(before), Takes(s, step), Waiting(Next(s, step).store.pending));
      } else {
        LocalStepsWait(s, step);
      }
    }
  }

  lemma Regroup(taken: seq<Uuid>, waiting: seq<Uuid>, id: Option<Uuid>)
    ensures id.Some? ==> (taken + waiting) + [id.value] == taken + (waiting + [id.value])
  {
  }

  lemma Shift(taken: seq<Uuid>, id: Option<Uuid>, waiting: seq<Uuid>)
    ensures id.Some? ==> taken + ([id.value] + waiting) == (taken + [id.value]) + waiting
  {
  }

  /** So the k-th id dequeued is the k-th id pushed. */
  lemma DequeuedInOrder(steps: seq<Step>, k: nat)
    requires k < |Taken(steps)|
    ensures k < |Pushed(steps)| && Taken(steps)[k] == Pushed(steps)[k]
  {
    FirstInFirstOut(steps);
  }
}
