/**
 Reads and writes of image metadata that overlap: a reader asks the cache, reads the
 database and stores what it read in three separate steps; a writer of the API updates its
 row and deletes the key in two; other writers (the worker, above all) change rows and
 never touch the cache. GET, SETEX and DEL may fail, and any request may die on the way.
 */
module CacheStaleness {
  import opened Commons
  import opened ImageCache

  type Pid = int

  /** Where a request stands. */
  datatype Pc =
    | Idle
    | Missed(id: ImageId)                            // the GET found nothing: fetch
    | Holding(id: ImageId, row: Row, since: nat)     // fetched, not yet stored
    | Written(id: ImageId)                           // the row is updated, the DEL still to come

  /** An answer of `get_image`: a row, or that there is none. */
  datatype Answer = Answer(id: ImageId, row: Option<Row>)

  datatype State = State(db: Table, cache: map<ImageId, Entry>, procs: map<Pid, Pc>, now: nat)

  datatype Step =
    | Get(p: Pid, id: ImageId, works: bool)
    | Fetch(p: Pid)
    | Store(p: Pid, works: bool)
    | Write(p: Pid, id: ImageId, row: Option<Row>)       // None: the row is deleted
    | Invalidate(p: Pid, works: bool)
    | WriteOnly(id: ImageId, row: Option<Row>)           // a writer that does not invalidate
    | Die(p: Pid)
    | Tick(seconds: nat)

  function PcOf(s: State, p: Pid): Pc { if p in s.procs then s.procs[p] else Idle }

  predicate Hit(s: State, id: ImageId) { LiveIn(s.cache, s.now, id) }

  predicate Enabled(s: State, step: Step) {
    match step
    case Get(p, _, _) => PcOf(s, p).Idle?
    case Fetch(p) => PcOf(s, p).Missed?
    case Store(p, _) => PcOf(s, p).Holding?
    case Write(p, id, _) => PcOf(s, p).Idle? && id in s.db
    case Invalidate(p, _) => PcOf(s, p).Written?
    case WriteOnly(_, _) => true
    case Die(_) => true
    case Tick(_) => true
  }

  function Put(db: Table, id: ImageId, row: Option<Row>): Table {
    if row.Some? then db[id := row.value] else db - {id}
  }

  function Next(s: State, step: Step): State
    requires Enabled(s, step)
  {
    match step
    case Get(p, id, works) => if works && Hit(s, id) then s else s.(procs := s.procs[p := Missed(id)])
    case Fetch(p) =>
      var id := PcOf(s, p).id;
      s.(procs := s.procs[p := if id in s.db then Holding(id, s.db[id], s.now) else Idle])
    case Store(p, works) =>
      var pc := PcOf(s, p);
      s.(cache := if works then s.cache[pc.id := Entry(pc.row, s.now + TTL)] else s.cache, procs := s.procs[p := Idle])
    case Write(p, id, row) => s.(db := Put(s.db, id, row), procs := s.procs[p := Written(id)])
    case Invalidate(p, works) =>
      s.(cache := if works then s.cache - {PcOf(s, p).id} else s.cache, procs := s.procs[p := Idle])
    case WriteOnly(id, row) => s.(db := Put(s.db, id, row))
    case Die(p) => s.(procs := s.procs[p := Idle])
    case Tick(seconds) => s.(now := s.now + seconds)
  }

  /** What a step answers to a reader, if it does. */
  function Answered(s: State, step: Step): Option<Answer>
    requires Enabled(s, step)
  {
    match step
    case Get(_, id, works) => if works && Hit(s, id) then Some(Answer(id, Some(s.cache[id].row))) else None
    case Fetch(p) => if PcOf(s, p).id in s.db then None else Some(Answer(PcOf(s, p).id, None))
    case Store(p, _) => Some(Answer(PcOf(s, p).id, Some(PcOf(s, p).row)))
    case _ => None
  }

  /** A run: `states[i]` is the state before `steps[i]`. */
  ghost predicate Runs(states: seq<State>, steps: seq<Step>) {
    && |states| == |steps| + 1 && states[0].cache == map[] && states[0].procs == map[]
    && forall i :: 0 <= i < |steps| ==> Enabled(states[i], steps[i]) && states[i + 1] == Next(states[i], steps[i])
  }

  /** No reader takes more than `delay` seconds from its fetch to its answer. */
  ghost predicate Prompt(states: seq<State>, steps: seq<Step>, delay: nat) {
    Runs(states, steps) &&
    forall i :: 0 <= i < |steps| && steps[i].Store? ==> states[i].now <= PcOf(states[i], steps[i].p).since + delay
  }

  // ---- Bounded staleness ----

  /** `row` was the row of `id` in the database at some state up to `n`, at time `from` or later. */
  ghost predicate WasRow(states: seq<State>, n: nat, id: ImageId, row: Row, from: int) {
    exists k :: 0 <= k <= n && k < |states| && RowAt(states[k], id, row) && from <= states[k].now
  }

  predicate RowAt(s: State, id: ImageId, row: Row) { id in s.db && s.db[id] == row }

  ghost predicate EntryOk(states: seq<State>, n: nat, delay: nat, id: ImageId)
    requires n < |states|
  {
    var s := states[n];
    id in s.cache ==>
      && s.cache[id].expires <= s.now + TTL
      && WasRow(states, n, id, s.cache[id].row, s.cache[id].expires - TTL - delay)
  }

  ghost predicate HolderOk(states: seq<State>, n: nat, p: Pid)
    requires n < |states|
  {
    var pc := PcOf(states[n], p);
    pc.Holding? ==> pc.since <= states[n].now && WasRow(states, n, pc.id, pc.row, pc.since)
  }

  lemma WasRowLater(states: seq<State>, n: nat, m: nat, id: ImageId, row: Row, from: int, from': int)
    requires WasRow(states, n, id, row, from) && n <= m && from' <= from
    ensures WasRow(states, m, id, row, from')
  {
    var k :| 0 <= k <= n && k < |states| && RowAt(states[k], id, row) && from <= states[k].now;
    assert RowAt(states[k], id, row) && from' <= states[k].now;
  }

  lemma HolderStep(states: seq<State>, steps: seq<Step>, n: nat, p: Pid)
    requires Runs(states, steps) && n < |steps| && HolderOk(states, n, p)
    ensures HolderOk(states, n + 1, p)
  {
    var s, step := states[n], steps[n];
    var pc := PcOf(states[n + 1], p);
    if pc.Holding? {
      if step == Fetch(p) {
        assert RowAt(s, pc.id, pc.row);
        assert WasRow(states, n, pc.id, pc.row, pc.since);
      }
      WasRowLater(states, n, n + 1, pc.id, pc.row, pc.since, pc.since);
    }
  }

  lemma EntryStep(states: seq<State>, steps: seq<Step>, delay: nat, n: nat, id: ImageId)
    requires Prompt(states, steps, delay) && n < |steps| && EntryOk(states, n, delay, id)
    requires forall p :: HolderOk(states, n, p)
    ensures EntryOk(states, n + 1, delay, id)
  {
    var s, s', step := states[n], states[n + 1], steps[n];
    if id in s'.cache {
      var e := s'.cache[id];
      var from := e.expires - TTL - delay;
      if step.Store? && step.works && PcOf(s, step.p).id == id {
        var pc := PcOf(s, step.p);
        assert HolderOk(states, n, step.p);
        WasRowLater(states, n, n + 1, id, pc.row, pc.since, from);
      } else {
        assert id in s.cache && s.cache[id] == e;
        WasRowLater(states, n, n + 1, id, e.row, from, from);
      }
    }
  }

  lemma {:induction false} RunKeepsRows(states: seq<State>, steps: seq<Step>, delay: nat, n: nat)
    requires Prompt(states, steps, delay) && n <= |steps|
    ensures forall p: Pid :: HolderOk(states, n, p)
    ensures forall id: ImageId :: EntryOk(states, n, delay, id)
  {
    if n > 0 {
      RunKeepsRows(states, steps, delay, n - 1);
      forall p: Pid ensures HolderOk(states, n, p) {
        HolderStep(states, steps, n - 1, p);
      }
      forall id: ImageId ensures EntryOk(states, n, delay, id) {
        EntryStep(states, steps, delay, n - 1, id);
      }
    }
  }

  /**
   Whatever overlaps and whatever fails, every row that `get_image` returns was the database
   row of that image less than `TTL + delay` seconds earlier, or at most `delay` seconds
   earlier when the reader fetched it itself. That an image is absent is always fresh.
   */
  lemma BoundedStaleness(states: seq<State>, steps: seq<Step>, delay: nat, n: nat)
    requires Prompt(states, steps, delay) && n < |steps| && Answered(states[n], steps[n]).Some?
    ensures var a := Answered(states[n], steps[n]).value;
      && (a.row.None? ==> a.id !in states[n].db)
      && (a.row.Some? && steps[n].Store? ==> WasRow(states, n, a.id, a.row.value, states[n].now - delay))
      && (a.row.Some? && !steps[n].Store? ==> WasRow(states, n, a.id, a.row.value, states[n].now - TTL - delay + 1))
  {
    RunKeepsRows(states, steps, delay, n);
    var a, s, step := Answered(states[n], steps[n]).value, states[n], steps[n];
    match step
    case Get(_, id, _) =>
      assert EntryOk(states, n, delay, id);
      WasRowLater(states, n, n, id, s.cache[id].row, s.cache[id].expires - TTL - delay, s.now - TTL - delay + 1);
    case Store(p, _) =>
      assert HolderOk(states, n, p);
      var pc := PcOf(s, p);
      WasRowLater(states, n, n, pc.id, pc.row, pc.since, s.now - delay);
    case Fetch(_) =>
  }

  // ---- When the overlap is harmless ----

  /** Every writer invalidates: no DEL fails and no writer dies before it. */
  predicate Invalidating(s: State, step: Step) {
    match step
    case Invalidate(_, works) => works
    case WriteOnly(_, _) => false
    case Die(p) => !PcOf(s, p).Written?
    case _ => true
  }

  /**
   What keeps the cache exact: every writer invalidates, and no DEL runs while a reader holds
   a row of that image that is out of date.
   */
  predicate Careful(s: State, step: Step) {
    && Invalidating(s, step)
    && (step.Invalidate? && PcOf(s, step.p).Written? ==>
          forall q :: q in s.procs ==> UpToDate(s, PcOf(s, step.p).id, s.procs[q]))
  }

  /** If `pc` holds a row of `id`, it is the row the database has. */
  predicate UpToDate(s: State, id: ImageId, pc: Pc) {
    pc.Holding? && pc.id == id ==> RowAt(s, id, pc.row)
  }

  /** Some writer has updated the row of `id` and not yet deleted the key. */
  predicate BeingWritten(s: State, id: ImageId) {
    exists p :: p in s.procs && s.procs[p] == Written(id)
  }

  ghost predicate Exact(s: State, id: ImageId) {
    BeingWritten(s, id) ||
    (&& (id in s.cache ==> RowAt(s, id, s.cache[id].row))
     && forall p :: p in s.procs ==> UpToDate(s, id, s.procs[p]))
  }

  lemma StillWritten(s: State, step: Step, id: ImageId)
    requires Enabled(s, step) && Invalidating(s, step) && (BeingWritten(s, id) || (step.Write? && step.id == id))
    requires !(step.Invalidate? && PcOf(s, step.p).id == id)
    ensures BeingWritten(Next(s, step), id)
  {
    var s' := Next(s, step);
    var p :| p in s'.procs && if step.Write? && step.id == id then p == step.p else p in s.procs && s.procs[p] == Written(id);
    assert p in s'.procs && s'.procs[p] == Written(id);
  }

  lemma NotWrittenBefore(s: State, step: Step, id: ImageId)
    requires Enabled(s, step) && Careful(s, step) && !BeingWritten(Next(s, step), id)
    requires !(step.Invalidate? && PcOf(s, step.p).id == id)
    ensures !BeingWritten(s, id)
    ensures step.Write? ==> step.id != id
  {
    if BeingWritten(s, id) || (step.Write? && step.id == id) {
      StillWritten(s, step, id);
    }
  }

  lemma CarefulStepIsExact(s: State, step: Step, id: ImageId)
    requires Enabled(s, step) && Careful(s, step) && Exact(s, id)
    ensures Exact(Next(s, step), id)
  {
    var s' := Next(s, step);
    if !BeingWritten(s', id) {
      if step.Invalidate? && PcOf(s, step.p).id == id {
        assert id !in s'.cache;
        forall q | q in s'.procs ensures UpToDate(s', id, s'.procs[q]) {
          if q in s.procs {
            assert UpToDate(s, id, s.procs[q]);
          }
        }
      } else {
        NotWrittenBefore(s, step, id);
        forall q | q in s'.procs ensures UpToDate(s', id, s'.procs[q]) {
          if q in s.procs {
            assert UpToDate(s, id, s.procs[q]);
          }
        }
        if step.Store? && step.p in s.procs {
          assert UpToDate(s, id, s.procs[step.p]);
        }
      }
    }
  }

  ghost predicate CarefulRun(states: seq<State>, steps: seq<Step>) {
    Runs(states, steps) && forall i :: 0 <= i < |steps| ==> Careful(states[i], steps[i])
  }

  /** Then outside the moments in which a row is being written, its cache entry is that row. */
  lemma {:induction false} NoStaleEntry(states: seq<State>, steps: seq<Step>, n: nat, id: ImageId)
    requires CarefulRun(states, steps) && n <= |steps|
    ensures Exact(states[n], id)
  {
    if n > 0 {
      NoStaleEntry(states, steps, n - 1, id);
      CarefulStepIsExact(states[n - 1], steps[n - 1], id);
    }
  }

  // ---- When exactly an entry turns stale ----

  /** The cache answers for `id` with a row the database no longer has, and no writer is about to delete the key. */
  predicate Stale(s: State, id: ImageId) {
    Hit(s, id) && !BeingWritten(s, id) && !RowAt(s, id, s.cache[id].row)
  }

  /** A reader stores a row of `id` that the database no longer has, while no writer is about to delete the key. */
  predicate StoresOld(s: State, step: Step, id: ImageId) {
    && step.Store? && step.works && PcOf(s, step.p).Holding? && PcOf(s, step.p).id == id
    && !BeingWritten(s, id) && !RowAt(s, id, PcOf(s, step.p).row)
  }

  /** A store does not end the writing of a row. */
  lemma StoreLeavesWriters(s: State, step: Step, id: ImageId)
    requires Enabled(s, step) && step.Store? && BeingWritten(Next(s, step), id)
    ensures BeingWritten(s, id)
  {
    var s' := Next(s, step);
    var p :| p in s'.procs && s'.procs[p] == Written(id);
    assert p in s.procs && s.procs[p] == Written(id);
  }

  /**
   If every writer invalidates, an entry that is not stale turns stale at a step if and only
   if that step is a working store of a row that the database no longer has.
   */
  lemma TurnsStaleIff(s: State, step: Step, id: ImageId)
    requires Enabled(s, step) && Invalidating(s, step) && !Stale(s, id)
    ensures Stale(Next(s, step), id) <==> StoresOld(s, step, id)
  {
    var s' := Next(s, step);
    if StoresOld(s, step, id) {
      StoredOldIsStale(s, step, id);
    } else if Stale(s', id) {
      if (BeingWritten(s, id) || (step.Write? && step.id == id)) && !(step.Invalidate? && PcOf(s, step.p).id == id) {
        StillWritten(s, step, id);
      }
    }
  }

  /** Whatever the entry was before, such a store leaves a stale one. */
  lemma StoredOldIsStale(s: State, step: Step, id: ImageId)
    requires Enabled(s, step) && StoresOld(s, step, id)
    ensures Stale(Next(s, step), id)
  {
    if BeingWritten(Next(s, step), id) {
      StoreLeavesWriters(s, step, id);
    }
  }

  ghost predicate InvalidatingRun(states: seq<State>, steps: seq<Step>) {
    Runs(states, steps) && forall i :: 0 <= i < |steps| ==> Invalidating(states[i], steps[i])
  }

  /** So a run in which every writer invalidates ever has a stale entry if and only if it has such a store. */
  lemma {:induction false} EverStaleIff(states: seq<State>, steps: seq<Step>, n: nat, id: ImageId)
    requires InvalidatingRun(states, steps) && n <= |steps|
    ensures (exists i :: 0 <= i <= n && Stale(states[i], id)) <==> exists i :: 0 <= i < n && StoresOld(states[i], steps[i], id)
  {
    if n > 0 {
      EverStaleIff(states, steps, n - 1, id);
      var s, step := states[n - 1], steps[n - 1];
      assert states[n] == Next(s, step);
      if StoresOld(s, step, id) {
        StoredOldIsStale(s, step, id);
      }
      if !Stale(s, id) {
        TurnsStaleIff(s, step, id);
      }
    }
  }

  /**
   Such a store happens: a reader that fetched before an update and stores after its DEL
   leaves the old row in the cache, though every DEL worked.
   */
  lemma ReaderOvertakenByWriter(old_: Row, new_: Row)
    requires old_ != new_
    ensures exists states: seq<State>, steps: seq<Step> ::
      && Runs(states, steps)
      && steps == [Get(1, 7, true), Fetch(1), Write(2, 7, Some(new_)), Invalidate(2, true), Store(1, true), Get(3, 7, true)]
      && InvalidatingRun(states, steps) && StoresOld(states[4], steps[4], 7)
      && Answered(states[5], steps[5]) == Some(Answer(7, Some(old_))) && RowAt(states[5], 7, new_)
      && !BeingWritten(states[5], 7)
  {
    var steps := [Get(1, 7, true), Fetch(1), Write(2, 7, Some(new_)), Invalidate(2, true), Store(1, true), Get(3, 7, true)];
    var s0 := State(map[7 := old_], map[], map[], 0);
    var s1 := Next(s0, steps[0]);
    var s2 := Next(s1, steps[1]);
    var s3 := Next(s2, steps[2]);
    var s4 := Next(s3, steps[3]);
    var s5 := Next(s4, steps[4]);
    var s6 := Next(s5, steps[5]);
    var states := [s0, s1, s2, s3, s4, s5, s6];
    assert Runs(states, steps);
    assert Answered(s5, steps[5]) == Some(Answer(7, Some(old_)));
  }
}
