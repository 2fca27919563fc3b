/**
 What the stamp of a dequeue protects against: a recovery compares the stamp of an id with
 its cutoff when it reaches the id, and removes it a few commands later. A dequeue that has
 written its stamp before that check keeps its task, whatever else runs; one that writes it
 between the check and the LREM may lose it.
 */
module RedisMarks {
  import opened Commons
  import opened RedisStore
  import opened RedisProtocol
  import opened RedisNoLoss
  import opened RedisExactlyOnce

  /** Step `m` of the run is the last command of a successful dequeue of `id`, the HSET of its time. */
  predicate Marks(steps: seq<Step>, m: nat, id: Uuid)
    requires m < |steps|
  {
    var pc := PcOf(Run(INIT, steps[..m]), steps[m].p);
    steps[m].event.Proceed? && pc.DeqMark? && pc.stamped && pc.id == id
  }

  /** Step `n` of the run is the LREM of `id` by a recovery with this cutoff. */
  predicate Removes(steps: seq<Step>, n: nat, id: Uuid, cutoff: Instant)
    requires n < |steps|
  {
    steps[n].event.Proceed? && Removing(PcOf(Run(INIT, steps[..n]), steps[n].p), id, cutoff)
  }

  predicate Removing(pc: Pc, id: Uuid, cutoff: Instant) {
    pc.Rec? && pc.stage == RecRem && pc.id == id && pc.cutoff == cutoff
  }

  /** A recovery has found `id` stale, and has not yet removed it. */
  predicate HasChecked(pc: Pc, id: Uuid, cutoff: Instant) {
    pc.Rec? && (pc.stage == RecRead || pc.stage == RecRem) && pc.id == id && pc.cutoff == cutoff
  }

  predicate Stamped(st: Store, id: Uuid, cutoff: Instant) {
    RecordOf(st, id).updatedAt.Some? && RecordOf(st, id).updatedAt.value.At? && RecordOf(st, id).updatedAt.value.t >= cutoff
  }

  /** From step `m` on the clock has reached the cutoff. */
  predicate ClockPast(steps: seq<Step>, m: nat, n: nat, cutoff: Instant)
    requires m <= n <= |steps|
  {
    forall k :: m <= k < n ==> steps[k].now >= cutoff
  }

  // ---- One step ----

  lemma CommandKeepsStamp(st: Store, pc: Pc, now: Instant, id: Uuid, cutoff: Instant)
    requires Stamped(st, id, cutoff) && now >= cutoff
    ensures Stamped(Command(st, pc, now).0, id, cutoff)
  {
  }

  /** No recovery checks an id with a late stamp and finds it stale. */
  lemma CommandChecks(st: Store, pc: Pc, now: Instant, id: Uuid, cutoff: Instant)
    requires Stamped(st, id, cutoff) && !HasChecked(pc, id, cutoff)
    ensures !HasChecked(Command(st, pc, now).1, id, cutoff)
  {
    if pc.RecNext? {
      assert Command(st, pc, now).1 == RecNextCommand(st, pc.rest, pc.cutoff);
    }
  }

  lemma StepKeepsStamp(s: State, step: Step, id: Uuid, cutoff: Instant, p: Pid)
    requires Stamped(s.store, id, cutoff) && step.now >= cutoff && !HasChecked(PcOf(s, p), id, cutoff)
    ensures Stamped(Next(s, step).store, id, cutoff) && !HasChecked(PcOf(Next(s, step), p), id, cutoff)
  {
    var s' := Next(s, step);
    if !Applies(s, step) {
      assert s' == s;
    } else if step.event.Proceed? {
      assert s' == AfterCommand(s, step.p, step.now);
      CommandKeepsStamp(s.store, PcOf(s, step.p), step.now, id, cutoff);
      if step.p == p {
        CommandChecks(s.store, PcOf(s, p), step.now, id, cutoff);
      }
    } else if step.event.Dequeue? {
      assert s' == AfterPop(s, step.p);
    } else {
      assert s'.store == s.store;
    }
  }

  lemma MarkStamps(s: State, step: Step, id: Uuid, cutoff: Instant, p: Pid)
    requires step.event.Proceed? && step.now >= cutoff && !HasChecked(PcOf(s, p), id, cutoff)
    requires PcOf(s, step.p).DeqMark? && PcOf(s, step.p).stamped && PcOf(s, step.p).id == id
    ensures Stamped(Next(s, step).store, id, cutoff) && !HasChecked(PcOf(Next(s, step), p), id, cutoff)
  {
    assert Next(s, step) == AfterCommand(s, step.p, step.now);
  }

  // ---- Runs ----

  lemma RunAt(steps: seq<Step>, n: nat)
    requires n < |steps|
    ensures Run(INIT, steps[..n + 1]) == Next(Run(INIT, steps[..n]), steps[n])
  {
    assert steps[..n + 1][..n] == steps[..n];
  }

  lemma {:induction false} StaysUnchecked(steps: seq<Step>, m: nat, n: nat, id: Uuid, cutoff: Instant, p: Pid)
    requires m < n <= |steps| && Marks(steps, m, id) && ClockPast(steps, m, n, cutoff)
    requires !HasChecked(PcOf(Run(INIT, steps[..m]), p), id, cutoff)
    ensures Stamped(Run(INIT, steps[..n]).store, id, cutoff) && !HasChecked(PcOf(Run(INIT, steps[..n]), p), id, cutoff)
  {
    RunAt(steps, n - 1);
    if m == n - 1 {
      MarkStamps(Run(INIT, steps[..m]), steps[m], id, cutoff, p);
    } else {
      StaysUnchecked(steps, m, n - 1, id, cutoff, p);
      StepKeepsStamp(Run(INIT, steps[..n - 1]), steps[n - 1], id, cutoff, p);
    }
  }

  /**
   In every run: a recovery that removes an id after a dequeue marked it, at the cutoff or
   later, had found it stale before the mark. Any other recovery leaves the task to its worker.
   */
  lemma MarkProtects(steps: seq<Step>, m: nat, n: nat, id: Uuid, cutoff: Instant)
    requires m < n < |steps| && Marks(steps, m, id) && ClockPast(steps, m, n, cutoff)
    requires Removes(steps, n, id, cutoff)
    ensures HasChecked(PcOf(Run(INIT, steps[..m]), steps[n].p), id, cutoff)
  {
    if !HasChecked(PcOf(Run(INIT, steps[..m]), steps[n].p), id, cutoff) {
      StaysUnchecked(steps, m, n, id, cutoff, steps[n].p);
    }
  }

  /** The cutoff of a recovery is its timeout before it began. */
  lemma {:induction false} RecoveryBegan(steps: seq<Step>, n: nat, p: Pid) returns (r: nat, timeout: nat)
    requires n <= |steps| && Recovering(PcOf(Run(INIT, steps[..n]), p))
    ensures r < n && steps[r].p == p && steps[r].event == Recover(timeout)
    ensures PcOf(Run(INIT, steps[..n]), p).cutoff == steps[r].now - timeout
  {
    if n == 0 {
      assert false;
    } else {
      var s, step := Run(INIT, steps[..n - 1]), steps[n - 1];
      RunAt(steps, n - 1);
      if Recovering(PcOf(s, p)) {
        r, timeout := RecoveryBegan(steps, n - 1, p);
        StepKeepsCutoff(s, step, p);
      } else {
        timeout := StepBeginsRecovery(s, step, p);
        r := n - 1;
      }
    }
  }

  lemma CommandKeepsCutoff(st: Store, pc: Pc, now: Instant)
    requires Recovering(Command(st, pc, now).1)
    ensures Recovering(pc) && Command(st, pc, now).1.cutoff == pc.cutoff
  {
    if pc.RecNext? {
      assert Command(st, pc, now).1 == RecNextCommand(st, pc.rest, pc.cutoff);
    }
  }

  lemma StepKeepsCutoff(s: State, step: Step, p: Pid)
    requires Recovering(PcOf(s, p)) && Recovering(PcOf(Next(s, step), p))
    ensures PcOf(Next(s, step), p).cutoff == PcOf(s, p).cutoff
  {
    if step.p == p && step.event.Proceed? {
      assert Next(s, step) == AfterCommand(s, p, step.now);
      CommandKeepsCutoff(s.store, PcOf(s, p), step.now);
    }
  }

  lemma StepBeginsRecovery(s: State, step: Step, p: Pid) returns (timeout: nat)
    requires !Recovering(PcOf(s, p)) && Recovering(PcOf(Next(s, step), p))
    ensures step.p == p && step.event == Recover(timeout)
    ensures PcOf(Next(s, step), p).cutoff == step.now - timeout
  {
    if step.event.Proceed? {
      assert Next(s, step) == AfterCommand(s, step.p, step.now);
      if step.p == p {
        CommandKeepsCutoff(s.store, PcOf(s, p), step.now);
      }
    }
    timeout := step.event.timeout;
  }

  lemma OrderlyTake(steps: seq<Step>, n: nat)
    requires OrderlyRun(steps) && n <= |steps|
    ensures OrderlyRun(steps[..n])
  {
    forall k | 0 <= k < n ensures Orderly(Run(INIT, steps[..n][..k]), steps[..n][k]) {
      assert steps[..n][..k] == steps[..k];
    }
  }

  /** In orderly runs no recovery is under way at a mark, so a recovery only removes what was marked before its cutoff. */
  lemma OnlyOldMarksAreRemoved(steps: seq<Step>, m: nat, n: nat, id: Uuid, cutoff: Instant)
    requires OrderlyRun(steps) && m < n < |steps| && Marks(steps, m, id) && Removes(steps, n, id, cutoff)
    requires forall k :: m < k < n ==> steps[k].now >= cutoff
    ensures steps[m].now < cutoff
  {
    if steps[m].now >= cutoff {
      MarkProtects(steps, m, n, id, cutoff);
      OrderlyTake(steps, m);
      RunKeepsOnce(steps[..m]);
      NoRecoveryBesideOwner(Run(INIT, steps[..m]), steps[m].p, steps[n].p);
    }
  }

  lemma NoRecoveryBesideOwner(s: State, p: Pid, q: Pid)
    requires OnceInv(s) && PcOf(s, p).DeqMark?
    ensures !Recovering(PcOf(s, q))
  {
    if q in s.procs && q != p {
      assert ProcOk(s, q);
    }
  }

  predicate InTime(steps: seq<Step>) { forall i, j :: 0 <= i < j < |steps| ==> steps[i].now <= steps[j].now }

  /**
   So in orderly runs, under a clock that does not go back, a task is only taken from a worker
   that marked it more than the timeout before the recovery began.
   */
  lemma OnlyTimedOutIsTaken(steps: seq<Step>, m: nat, n: nat, id: Uuid, cutoff: Instant) returns (r: nat, timeout: nat)
    requires OrderlyRun(steps) && InTime(steps) && m < n < |steps| && Marks(steps, m, id) && Removes(steps, n, id, cutoff)
    ensures r < n && steps[r].p == steps[n].p && steps[r].event == Recover(timeout)
    ensures steps[m].now < steps[r].now - timeout
  {
    r, timeout := RecoveryBegan(steps, n, steps[n].p);
    if steps[m].now >= cutoff {
      OnlyOldMarksAreRemoved(steps, m, n, id, cutoff);
    }
  }
}
