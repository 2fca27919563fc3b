/**
 One Redis counter shared by any number of calls of `check`, command by command: INCR, EXPIRE
 and GET are three commands, and between any two of them other calls run, the key may expire
 or a call may die. A generation is the life of the key from its creation to its expiry.
 */
module RateLimiterConcurrent {
  import opened Commons
  import opened RateLimits

  datatype Key = Key(count: nat, expiring: bool)

  /** Where one call stands; `ticket` is the value its INCR produced, `born` its generation. */
  datatype Call =
    | Counted(born: nat, ticket: nat)
    | Stamped(born: nat, ticket: nat)
    | Answered(born: nat, ticket: nat, seen: Option<nat>, allowed: bool)

  /** `generation` counts the expiries so far; `counted` has the generation of every INCR, those of dead calls too. */
  datatype State = State(key: Option<Key>, generation: nat, calls: map<int, Call>, counted: map<int, nat>)

  const INIT := State(None, 0, map[], map[])

  datatype Step = Incr(id: int) | Expire(id: int) | Get(id: int) | Die(id: int) | KeyExpires

  predicate InFlight(c: Call) { !c.Answered? }

  predicate Enabled(s: State, step: Step) {
    match step
    case Incr(id) => id !in s.counted
    case Expire(id) => id in s.calls && s.calls[id].Counted?
    case Get(id) => id in s.calls && s.calls[id].Stamped?
    case Die(id) => id in s.calls && InFlight(s.calls[id])
    case KeyExpires => s.key.Some? && s.key.value.expiring
  }

  function IncrKey(k: Option<Key>): Key {
    match k
    case None => Key(1, false)
    case Some(v) => v.(count := v.count + 1)
  }

  /** EXPIRE does nothing to a key that is gone. */
  function ExpireKey(k: Option<Key>): Option<Key> {
    match k
    case None => None
    case Some(v) => Some(v.(expiring := true))
  }

  /** The verdict on what GET returns; the nil of a vanished key is an error, and errors let through. */
  function Reply(c: Call, s: State, limit: nat): Call
    requires c.Stamped?
  {
    match s.key
    case None => Answered(c.born, c.ticket, None, true)
    case Some(v) => Answered(c.born, c.ticket, Some(s.generation), v.count <= limit)
  }

  function Next(s: State, step: Step, limit: nat): State
    requires Enabled(s, step)
  {
    match step
    case Incr(id) =>
      var k := IncrKey(s.key);
      s.(key := Some(k), calls := s.calls[id := Counted(s.generation, k.count)], counted := s.counted[id := s.generation])
    case Expire(id) =>
      s.(key := ExpireKey(s.key), calls := s.calls[id := Stamped(s.calls[id].born, s.calls[id].ticket)])
    case Get(id) => s.(calls := s.calls[id := Reply(s.calls[id], s, limit)])
    case Die(id) => s.(calls := s.calls - {id})
    case KeyExpires => s.(key := None, generation := s.generation + 1)
  }

  predicate Runs(steps: seq<Step>, limit: nat)
    decreases |steps|, 0
  {
    steps == [] || (Runs(steps[..|steps| - 1], limit)
                    && Enabled(Run(steps[..|steps| - 1], limit), steps[|steps| - 1]))
  }

  function Run(steps: seq<Step>, limit: nat): State
    requires Runs(steps, limit)
    decreases |steps|, 1
  {
    if steps == [] then INIT
    else Next(Run(steps[..|steps| - 1], limit), steps[|steps| - 1], limit)
  }

  // ---- The invariant: tickets of one generation are distinct and at most the count ----

  function CountNow(s: State): nat { if s.key.Some? then s.key.value.count else 0 }

  ghost predicate CallOk(s: State, id: int, limit: nat) {
    id in s.calls ==>
      var c := s.calls[id];
      && 1 <= c.ticket && c.born <= s.generation
      && (c.born == s.generation ==> c.ticket <= CountNow(s))
      && (c.Answered? && c.allowed && c.seen == Some(c.born) ==> c.ticket <= limit)
  }

  ghost predicate PairOk(s: State, i: int, j: int) {
    i in s.calls && j in s.calls && s.calls[i].born == s.calls[j].born && s.calls[i].ticket == s.calls[j].ticket ==> i == j
  }

  ghost predicate Inv(s: State, limit: nat) {
    (forall id: int :: CallOk(s, id, limit)) && forall i: int, j: int :: PairOk(s, i, j)
  }

  lemma StepKeepsInv(s: State, step: Step, limit: nat)
    requires Inv(s, limit) && Enabled(s, step)
    ensures Inv(Next(s, step, limit), limit)
  {
    var s' := Next(s, step, limit);
    forall id: int ensures CallOk(s', id, limit) {
      assert CallOk(s, id, limit);
    }
    forall i: int, j: int ensures PairOk(s', i, j) {
      assert PairOk(s, i, j) && CallOk(s, i, limit) && CallOk(s, j, limit);
    }
  }

  lemma {:induction false} RunKeepsInv(steps: seq<Step>, limit: nat)
    requires Runs(steps, limit)
    ensures Inv(Run(steps, limit), limit)
  {
    if steps != [] {
      RunKeepsInv(steps[..|steps| - 1], limit);
      StepKeepsInv(Run(steps[..|steps| - 1], limit), steps[|steps| - 1], limit);
    }
  }

  // ---- What a count counts ----

  /** The calls that ran INCR in generation `g`. */
  function CountedIn(s: State, g: nat): set<int> { set id | id in s.counted && s.counted[id] == g }

  ghost predicate CountInv(s: State) {
    && CountNow(s) == |CountedIn(s, s.generation)|
    && (forall id :: id in s.counted ==> s.counted[id] <= s.generation)
    && (forall id :: id in s.calls ==> id in s.counted && s.counted[id] == s.calls[id].born)
  }

  lemma IncrKeepsCount(s: State, id: int, limit: nat)
    requires CountInv(s) && id !in s.counted
    ensures CountInv(Next(s, Incr(id), limit))
  {
    var s' := Next(s, Incr(id), limit);
    assert CountedIn(s', s'.generation) == CountedIn(s, s.generation) + {id};
  }

  lemma ExpiryKeepsCount(s: State, limit: nat)
    requires CountInv(s) && Enabled(s, KeyExpires)
    ensures CountInv(Next(s, KeyExpires, limit))
  {
    var s' := Next(s, KeyExpires, limit);
    forall id ensures id !in CountedIn(s', s'.generation) {
      assert id in s.counted ==> s.counted[id] <= s.generation;
    }
    assert CountedIn(s', s'.generation) == {};
  }

  lemma StepKeepsCount(s: State, step: Step, limit: nat)
    requires CountInv(s) && Enabled(s, step)
    ensures CountInv(Next(s, step, limit))
  {
    match step
    case Incr(id) => IncrKeepsCount(s, id, limit);
    case KeyExpires => ExpiryKeepsCount(s, limit);
    case _ =>
      var s' := Next(s, step, limit);
      assert s'.counted == s.counted && s'.generation == s.generation && CountNow(s') == CountNow(s);
      assert CountedIn(s', s'.generation) == CountedIn(s, s.generation);
  }

  lemma {:induction false} RunKeepsCount(steps: seq<Step>, limit: nat)
    requires Runs(steps, limit)
    ensures CountInv(Run(steps, limit))
  {
    if steps == [] {
      assert CountedIn(INIT, 0) == {};
    } else {
      RunKeepsCount(steps[..|steps| - 1], limit);
      StepKeepsCount(Run(steps[..|steps| - 1], limit), steps[|steps| - 1], limit);
    }
  }

  /**
   In every run a GET that finds the key lets its call through if and only if at most `limit`
   calls have run INCR in the generation it meets; one that finds no key always does.
   */
  lemma GetAllowsIff(steps: seq<Step>, limit: nat, id: int)
    requires Runs(steps, limit) && Enabled(Run(steps, limit), Get(id))
    ensures var s := Run(steps, limit); var c := Next(s, Get(id), limit).calls[id];
      && c.Answered? && (c.seen == if s.key.Some? then Some(s.generation) else None)
      && (c.allowed <==> s.key.None? || |CountedIn(s, s.generation)| <= limit)
  {
    RunKeepsCount(steps, limit);
  }

  // ---- Bounds ----

  /** The calls born in generation `g` that were let through on a count of that generation. */
  function AllowedWithin(s: State, g: nat): set<int> {
    set id | id in s.calls && s.calls[id].Answered? && s.calls[id].allowed && s.calls[id].born == g
             && s.calls[id].seen == Some(g)
  }

  /** The calls born in generation `g` that were let through. */
  function AllowedOf(s: State, g: nat): set<int> {
    set id | id in s.calls && s.calls[id].Answered? && s.calls[id].allowed && s.calls[id].born == g
  }

  /** However the commands interleave, at most `limit` calls are let through on one generation's count. */
  lemma OwnGenerationBound(steps: seq<Step>, limit: nat, g: nat)
    requires Runs(steps, limit)
    ensures |AllowedWithin(Run(steps, limit), g)| <= limit
  {
    var s := Run(steps, limit);
    RunKeepsInv(steps, limit);
    var rank := (id: int) => if id in s.calls then s.calls[id].ticket else 0;
    var allowed := AllowedWithin(s, g);
    forall id | id in allowed ensures 1 <= rank(id) <= limit {
      assert CallOk(s, id, limit);
    }
    forall i, j | i in allowed && j in allowed && rank(i) == rank(j) ensures i == j {
      assert PairOk(s, i, j);
    }
    RanksBound(allowed, rank, limit);
  }

  /** The calls born in generation `g` that were let through on another generation's count, or on none. */
  function Strays(s: State, g: nat): set<int> { AllowedOf(s, g) - AllowedWithin(s, g) }

  /** So a generation lets through at most `limit` calls and those whose GET met another generation. */
  lemma ExcessIsStrays(steps: seq<Step>, limit: nat, g: nat)
    requires Runs(steps, limit)
    ensures var s := Run(steps, limit);
      && |AllowedOf(s, g)| == |AllowedWithin(s, g)| + |Strays(s, g)| <= limit + |Strays(s, g)|
      && forall id :: id in Strays(s, g) ==> s.calls[id].seen != Some(g)
  {
    var s := Run(steps, limit);
    OwnGenerationBound(steps, limit, g);
    assert AllowedOf(s, g) == AllowedWithin(s, g) + Strays(s, g);
  }

  /** No expiry falls between the INCR of a call and its GET. */
  predicate Undisturbed(steps: seq<Step>, limit: nat)
    requires Runs(steps, limit)
  {
    steps == [] ||
    (var before := steps[..|steps| - 1];
     Undisturbed(before, limit)
     && (steps[|steps| - 1].KeyExpires? ==> forall id :: id in Run(before, limit).calls ==> !InFlight(Run(before, limit).calls[id])))
  }

  ghost predicate ReadsOwn(s: State, id: int) {
    id in s.calls ==>
      var c := s.calls[id];
      if c.Answered? then c.seen == Some(c.born) else c.born == s.generation && s.key.Some?
  }

  lemma {:induction false} UndisturbedReadsOwn(steps: seq<Step>, limit: nat, id: int)
    requires Runs(steps, limit) && Undisturbed(steps, limit)
    ensures ReadsOwn(Run(steps, limit), id)
  {
    if steps != [] {
      UndisturbedReadsOwn(steps[..|steps| - 1], limit, id);
    }
  }

  /** Then at most `limit` calls per generation are let through at all. */
  lemma LimitPerGeneration(steps: seq<Step>, limit: nat, g: nat)
    requires Runs(steps, limit) && Undisturbed(steps, limit)
    ensures |AllowedOf(Run(steps, limit), g)| <= limit
  {
    var s := Run(steps, limit);
    forall id | id in AllowedOf(s, g) ensures id in AllowedWithin(s, g) {
      UndisturbedReadsOwn(steps, limit, id);
      assert ReadsOwn(s, id);
    }
    assert AllowedOf(s, g) == AllowedWithin(s, g);
    OwnGenerationBound(steps, limit, g);
  }

  /** And a call is denied if and only if `limit` other calls of its generation ran INCR before its GET. */
  lemma DeniedIff(steps: seq<Step>, limit: nat, id: int)
    requires Runs(steps, limit) && Undisturbed(steps, limit) && Enabled(Run(steps, limit), Get(id))
    ensures var s := Run(steps, limit);
      !Next(s, Get(id), limit).calls[id].allowed <==> |CountedIn(s, s.calls[id].born) - {id}| >= limit
  {
    var s := Run(steps, limit);
    RunKeepsCount(steps, limit);
    UndisturbedReadsOwn(steps, limit, id);
    assert ReadsOwn(s, id);
    var all := CountedIn(s, s.generation);
    assert id in all && |all - {id}| == |all| - 1;
  }

  /** Without that assumption the bound is lost: an expiry before two GETs lets both calls through. */
  lemma ExpiryInFlightBreaksTheLimit()
    ensures var steps := [Incr(1), Incr(2), Expire(1), Expire(2), KeyExpires, Get(1), Get(2)];
      && Runs(steps, 1)
      && !Undisturbed(steps, 1)
      && AllowedOf(Run(steps, 1), 0) == {1, 2}
  {
    var s0 := [Incr(1)];
    var s1 := s0 + [Incr(2)];
    var s2 := s1 + [Expire(1)];
    var s3 := s2 + [Expire(2)];
    var s4 := s3 + [KeyExpires];
    var s5 := s4 + [Get(1)];
    var s6 := s5 + [Get(2)];
    OneMore([], Incr(1), 1);
    assert [] + [Incr(1)] == s0;
    OneMore(s0, Incr(2), 1);
    OneMore(s1, Expire(1), 1);
    OneMore(s2, Expire(2), 1);
    OneMore(s3, KeyExpires, 1);
    assert InFlight(Run(s3, 1).calls[1]);
    assert !Undisturbed(s4, 1);
    OneMore(s4, Get(1), 1);
    OneMore(s5, Get(2), 1);
    assert s6 == [Incr(1), Incr(2), Expire(1), Expire(2), KeyExpires, Get(1), Get(2)];
  }

  lemma OneMore(steps: seq<Step>, step: Step, limit: nat)
    requires Runs(steps, limit) && Enabled(Run(steps, limit), step)
    ensures Runs(steps + [step], limit)
    ensures Run(steps + [step], limit) == Next(Run(steps, limit), step, limit)
    ensures Undisturbed(steps + [step], limit) ==> Undisturbed(steps, limit)
    ensures Undisturbed(steps + [step], limit) && step.KeyExpires? ==>
      forall id :: id in Run(steps, limit).calls ==> !InFlight(Run(steps, limit).calls[id])
  {
    var more := steps + [step];
    assert more[..|more| - 1] == steps && more[|more| - 1] == step;
  }
}
