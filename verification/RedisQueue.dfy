/**
 The operations of the Redis queue, run one at a time, as functions on stores, and their
 refinement of the abstract queue. The class in `RedisBackend` is proved against these
 functions, and `RedisSolo` shows that a lone process of the step system computes them.
 */
module RedisQueue {
  import opened Commons
  import opened RedisStore
  import RedisNoLoss
  import Abs = AbstractQueue

  datatype QueueError = InvalidUuid(text: string) | MissingData(id: Uuid) | Serialize

  // ---- The operations as functions ----

  function Enqueue(st: Store, t: Task, now: Instant): Store {
    var id := t.taskId;
    PushPending(SetUpdated(SetCreated(SetStatus(SetData(st, id, t), id, Pending), id, now), id, now), Ref(id))
  }

  function Dequeue(st: Store, now: Instant): (Store, Result<Option<Task>, QueueError>) {
    if st.pending == [] then (st, Ok(None))
    else
      var e := st.pending[|st.pending| - 1];
      var st1 := PopPush(st);
      if e.Junk? then (st1, Err(InvalidUuid(e.text)))
      else
        match RecordOf(st, e.id).data
        case None => (RemProcessing(st1, e), Err(MissingData(e.id)))
        case Some(Corrupt(_)) => (st1, Err(Serialize))
        case Some(Json(t)) => (SetUpdated(SetStatus(st1, e.id, Processing), e.id, now), Ok(Some(t)))
  }

  function Ack(st: Store, id: Uuid, now: Instant): Store {
    SetUpdated(SetStatus(RemProcessing(st, Ref(id)), id, Done), id, now)
  }

  /** What both branches of a nack do first. */
  function NackStart(st: Store, id: Uuid, now: Instant): Store {
    SetUpdated(SetError(RemProcessing(st, Ref(id)), id, NACK_ERROR), id, now)
  }

  function NackRetry(st: Store, t: Task): Store {
    PushPending(SetStatus(SetData(st, t.taskId, t.(retryCount := t.retryCount + 1)), t.taskId, Pending), Ref(t.taskId))
  }

  function NackDead(st: Store, id: Uuid): Store { SetStatus(PushDead(st, Ref(id)), id, Dead) }

  function Nack(st: Store, id: Uuid, retry: int, max: int, now: Instant)
    : (Store, Result<Abs.NackAction, QueueError>)
  {
    match RecordOf(st, id).data
    case None => (st, Err(MissingData(id)))
    case Some(Corrupt(_)) => (st, Err(Serialize))
    case Some(Json(stored)) =>
      var t := stored.(retryCount := retry, maxRetries := max);
      var st1 := NackStart(st, t.taskId, now);
      if retry < max then (NackRetry(st1, t), Ok(Abs.Retry)) else (NackDead(st1, t.taskId), Ok(Abs.DeadLetter))
  }

  /** Whether recovery moves an entry it reads in `st`. */
  predicate Recoverable(st: Store, e: Entry, cutoff: Instant) {
    e.Ref? && Stale(st, e.id, cutoff) && Readable(st, e.id)
  }

  function RecoverOne(st: Store, id: Uuid, now: Instant): Store {
    PushPending(SetError(SetUpdated(SetStatus(RemProcessing(st, Ref(id)), id, Pending), id, now), id, RECOVERED), Ref(id))
  }

  /** The loop over the snapshot; `clock(k)` is the time at its k-th entry. */
  function RecoverFrom(st: Store, ids: seq<Entry>, cutoff: Instant, clock: nat -> Instant, k: nat): (Store, seq<Task>)
    decreases |ids|
  {
    if ids == [] then (st, [])
    else if Recoverable(st, ids[0], cutoff) then
      var (st', rest) := RecoverFrom(RecoverOne(st, ids[0].id, clock(k)), ids[1..], cutoff, clock, k + 1);
      (st', [TaskOf(st, ids[0].id)] + rest)
    else RecoverFrom(st, ids[1..], cutoff, clock, k + 1)
  }

  // ---- What they answer and do to the lists, on any store ----

  /**
   A dequeue of an empty queue changes nothing. Otherwise the rightmost entry leaves pending:
   an id without data leaves the queue for good, everything else goes to processing, and only
   a readable payload is returned and changes the hash.
   */
  lemma DequeueOutcomes(st: Store, now: Instant)
    ensures var (st', r) := Dequeue(st, now);
      if st.pending == [] then st' == st && r == Ok(None)
      else
        var e := st.pending[|st.pending| - 1];
        && st'.pending == st.pending[..|st.pending| - 1] && st'.dead == st.dead
        && match e
           case Junk(text) => r == Err(InvalidUuid(text)) && st'.processing == [e] + st.processing && st'.hash == st.hash
           case Ref(id) =>
             match RecordOf(st, id).data
             case None => r == Err(MissingData(id)) && st'.processing == st.processing && st'.hash == st.hash
             case Some(Corrupt(_)) => r == Err(Serialize) && st'.processing == [e] + st.processing && st'.hash == st.hash
             case Some(Json(t)) => r == Ok(Some(t)) && st'.processing == [e] + st.processing
  {
    if st.pending != [] {
      var e := st.pending[|st.pending| - 1];
      LRemUndoesPush(st.processing, e);
    }
  }

  /** A nack without a readable payload fails and changes nothing; another one answers by the caller's numbers. */
  lemma NackOutcomes(st: Store, id: Uuid, retry: int, max: int, now: Instant)
    ensures var (st', r) := Nack(st, id, retry, max, now);
      match RecordOf(st, id).data
      case None => st' == st && r == Err(MissingData(id))
      case Some(Corrupt(_)) => st' == st && r == Err(Serialize)
      case Some(Json(t)) =>
        && r == Ok(if retry < max then Abs.Retry else Abs.DeadLetter)
        && st'.processing == LRem(st.processing, Ref(t.taskId))
        && st'.pending == (if retry < max then [Ref(t.taskId)] + st.pending else st.pending)
        && st'.dead == (if retry < max then st.dead else [Ref(t.taskId)] + st.dead)
  {
  }

  // ---- Refinement of the abstract queue ----

  /** The state the queue is in when only its own operations write the keys. */
  ghost predicate Sound(st: Store) {
    RedisNoLoss.StoreKnown(st) && forall id: Uuid :: Copies(st, Ref(id)) <= 1
  }

  ghost function IdsIn(list: seq<Entry>): set<Uuid> { set e | e in list && e.Ref? :: e.id }

  ghost function View(st: Store, finished: set<Uuid>): Abs.Queue {
    Abs.Queue(IdsIn(st.pending), IdsIn(st.processing), IdsIn(st.dead), finished)
  }

  lemma InIdsIn(list: seq<Entry>, id: Uuid)
    ensures id in IdsIn(list) <==> Ref(id) in list
    ensures id in IdsIn(list) <==> CopiesIn(list, Ref(id)) > 0
  {
  }

  lemma IdsAfterPush(list: seq<Entry>, id: Uuid)
    ensures IdsIn([Ref(id)] + list) == IdsIn(list) + {id}
  {
    forall x ensures x in IdsIn([Ref(id)] + list) <==> x in IdsIn(list) + {id} {
      InIdsIn([Ref(id)] + list, x);
      InIdsIn(list, x);
    }
  }

  lemma IdsAfterLRem(list: seq<Entry>, id: Uuid)
    requires CopiesIn(list, Ref(id)) <= 1
    ensures IdsIn(LRem(list, Ref(id))) == IdsIn(list) - {id}
  {
    forall x ensures x in IdsIn(LRem(list, Ref(id))) <==> x in IdsIn(list) - {id} {
      InIdsIn(LRem(list, Ref(id)), x);
      InIdsIn(list, x);
    }
  }

  lemma EnqueueRefines(st: Store, finished: set<Uuid>, t: Task, now: Instant)
    requires Sound(st) && Abs.Fresh(View(st, finished), t.taskId)
    ensures var st' := Enqueue(st, t, now);
      Sound(st') && Abs.Does(View(st, finished), Abs.Enqueued(t.taskId), View(st', finished))
  {
    var st' := Enqueue(st, t, now);
    IdsAfterPush(st.pending, t.taskId);
    InIdsIn(st.pending, t.taskId);
    InIdsIn(st.processing, t.taskId);
    InIdsIn(st.dead, t.taskId);
    forall id: Uuid ensures Copies(st', Ref(id)) <= 1 {
      assert Copies(st, Ref(id)) <= 1;
    }
  }

  lemma PopRefines(st: Store, id: Uuid)
    requires Sound(st) && st.pending != [] && st.pending[|st.pending| - 1] == Ref(id)
    ensures var st' := PopPush(st);
      && id in IdsIn(st.pending)
      && IdsIn(st'.pending) == IdsIn(st.pending) - {id} && IdsIn(st'.processing) == IdsIn(st.processing) + {id}
      && forall x: Uuid :: Copies(st', Ref(x)) <= 1
  {
    var st' := PopPush(st);
    assert Ref(id) in st.pending;
    forall x: Uuid
      ensures x in IdsIn(st'.pending) <==> x in IdsIn(st.pending) - {id}
      ensures Copies(st', Ref(x)) <= 1
    {
      PopMovesOne(st, Ref(x));
      assert Copies(st, Ref(x)) <= 1;
      InIdsIn(st'.pending, x);
      InIdsIn(st.pending, x);
    }
    IdsAfterPush(st.processing, id);
  }

  /** On a sound store a dequeue never errs, and returns the stored payload of the id it takes. */
  lemma DequeueRefines(st: Store, finished: set<Uuid>, now: Instant)
    requires Sound(st)
    ensures var (st', r) := Dequeue(st, now);
      && Sound(st') && r.Ok?
      && (r.value.Some? ==> RedisNoLoss.HasData(st, r.value.value.taskId) && TaskOf(st, r.value.value.taskId) == r.value.value)
      && Abs.Does(View(st, finished), Abs.Dequeued(if r.value.Some? then Some(r.value.value.taskId) else None), View(st', finished))
  {
    if st.pending != [] {
      var e := st.pending[|st.pending| - 1];
      assert e in st.pending;
      PopRefines(st, e.id);
      var st' := Dequeue(st, now).0;
      assert SameCopies(PopPush(st), st');
    }
  }

  predicate SameCopies(st: Store, st': Store) {
    st.pending == st'.pending && st.processing == st'.processing && st.dead == st'.dead
  }

  /** The lists after `id` left `processing`. */
  lemma RemSound(st: Store, id: Uuid)
    requires Sound(st) && id in IdsIn(st.processing)
    ensures var st' := RemProcessing(st, Ref(id));
      && IdsIn(st'.processing) == IdsIn(st.processing) - {id}
      && Copies(st', Ref(id)) == 0
      && (forall x: Uuid :: Copies(st', Ref(x)) <= 1)
      && RedisNoLoss.StoreKnown(st')
  {
    var st' := RemProcessing(st, Ref(id));
    InIdsIn(st.processing, id);
    assert Copies(st, Ref(id)) <= 1;
    IdsAfterLRem(st.processing, id);
    forall x: Uuid ensures Copies(st', Ref(x)) <= 1 {
      assert Copies(st, Ref(x)) <= 1;
    }
  }

  /** Writing hash fields keeps a store sound as long as the data stay readable. */
  lemma HashSound(st: Store, st': Store)
    requires Sound(st) && SameCopies(st, st')
    requires forall id :: RedisNoLoss.HasData(st, id) ==> RedisNoLoss.HasData(st', id)
    ensures Sound(st')
  {
  }

  lemma PushSound(st: Store, id: Uuid)
    requires Sound(st) && Copies(st, Ref(id)) == 0 && RedisNoLoss.HasData(st, id)
    ensures Sound(PushPending(st, Ref(id))) && Sound(PushDead(st, Ref(id)))
  {
    forall x: Uuid
      ensures Copies(PushPending(st, Ref(id)), Ref(x)) <= 1
      ensures Copies(PushDead(st, Ref(id)), Ref(x)) <= 1
    {
      assert Copies(st, Ref(x)) <= 1;
    }
  }

  lemma AckRefines(st: Store, finished: set<Uuid>, id: Uuid, now: Instant)
    requires Sound(st) && id in IdsIn(st.processing)
    ensures var st' := Ack(st, id, now);
      Sound(st') && Abs.Does(View(st, finished), Abs.Acked(id), View(st', finished + {id}))
  {
    RemSound(st, id);
    HashSound(RemProcessing(st, Ref(id)), Ack(st, id, now));
  }

  lemma NackStartSound(st: Store, id: Uuid, now: Instant)
    requires Sound(st) && id in IdsIn(st.processing)
    ensures var st1 := NackStart(st, id, now);
      && Sound(st1) && Copies(st1, Ref(id)) == 0 && RedisNoLoss.HasData(st1, id)
      && IdsIn(st1.processing) == IdsIn(st.processing) - {id}
  {
    InIdsIn(st.processing, id);
    assert Ref(id) in st.processing && RedisNoLoss.HasData(st, id);
    RemSound(st, id);
    HashSound(RemProcessing(st, Ref(id)), NackStart(st, id, now));
  }

  lemma RaisedKeepsData(st: Store, t: Task, id: Uuid)
    requires RedisNoLoss.HasData(st, id)
    ensures RedisNoLoss.HasData(NackRetry(st, t), id)
  {
  }

  lemma NackRetrySound(st: Store, t: Task)
    requires Sound(st) && Copies(st, Ref(t.taskId)) == 0
    ensures Sound(NackRetry(st, t)) && IdsIn(NackRetry(st, t).pending) == IdsIn(st.pending) + {t.taskId}
  {
    var st' := NackRetry(st, t);
    forall id | RedisNoLoss.HasData(st, id) ensures RedisNoLoss.HasData(st', id) {
      RaisedKeepsData(st, t, id);
    }
    assert RedisNoLoss.HasData(st', t.taskId);
    forall x: Uuid ensures Copies(st', Ref(x)) <= 1 {
      assert Copies(st, Ref(x)) <= 1;
    }
    IdsAfterPush(st.pending, t.taskId);
  }

  lemma NackDeadSound(st: Store, id: Uuid)
    requires Sound(st) && Copies(st, Ref(id)) == 0 && RedisNoLoss.HasData(st, id)
    ensures Sound(NackDead(st, id)) && IdsIn(NackDead(st, id).dead) == IdsIn(st.dead) + {id}
  {
    PushSound(st, id);
    HashSound(PushDead(st, Ref(id)), NackDead(st, id));
    IdsAfterPush(st.dead, id);
  }

  lemma NackRefines(st: Store, finished: set<Uuid>, id: Uuid, retry: int, max: int, now: Instant)
    requires Sound(st) && id in IdsIn(st.processing)
    ensures var (st', r) := Nack(st, id, retry, max, now);
      && Sound(st') && r.Ok?
      && Abs.Does(View(st, finished), Abs.Nacked(id, retry, max, r.value), View(st', finished))
  {
    InIdsIn(st.processing, id);
    assert Ref(id) in st.processing && RedisNoLoss.HasData(st, id);
    NackStartSound(st, id, now);
    if retry < max {
      NackRetrySound(NackStart(st, id, now), TaskOf(st, id).(retryCount := retry, maxRetries := max));
    } else {
      NackDeadSound(NackStart(st, id, now), id);
    }
  }

  // ---- Recovery ----

  /** The entries recovery moves, in order. */
  function MovedFrom(st: Store, ids: seq<Entry>, cutoff: Instant, clock: nat -> Instant, k: nat): seq<Entry>
    decreases |ids|
  {
    if ids == [] then []
    else if Recoverable(st, ids[0], cutoff) then
      [ids[0]] + MovedFrom(RecoverOne(st, ids[0].id, clock(k)), ids[1..], cutoff, clock, k + 1)
    else MovedFrom(st, ids[1..], cutoff, clock, k + 1)
  }

  function Reversed(list: seq<Entry>): seq<Entry>
  {
    if list == [] then [] else Reversed(list[1..]) + [list[0]]
  }

  /** The moved entries are a part of the snapshot, and leave `processing`. */
  lemma {:induction false} RecoveryTakes(st: Store, ids: seq<Entry>, cutoff: Instant, clock: nat -> Instant, k: nat)
    ensures var moved := MovedFrom(st, ids, cutoff, clock, k);
      && multiset(moved) <= multiset(ids)
      && multiset(RecoverFrom(st, ids, cutoff, clock, k).0.processing) == multiset(st.processing) - multiset(moved)
    decreases |ids|
  {
    if ids != [] {
      var head, tail := ids[0], ids[1..];
      assert ids == [head] + tail;
      if Recoverable(st, head, cutoff) {
        var st1 := RecoverOne(st, head.id, clock(k));
        RecoveryTakes(st1, tail, cutoff, clock, k + 1);
        var rest := MovedFrom(st1, tail, cutoff, clock, k + 1);
        assert multiset([head] + rest) == multiset{head} + multiset(rest);
        assert multiset(st1.processing) == multiset(st.processing) - multiset{head};
      } else {
        RecoveryTakes(st, tail, cutoff, clock, k + 1);
      }
    }
  }

  /** The moved entries are pushed on `pending` one by one. */
  lemma {:induction false} RecoveryPushes(st: Store, ids: seq<Entry>, cutoff: Instant, clock: nat -> Instant, k: nat)
    ensures var (st', out) := RecoverFrom(st, ids, cutoff, clock, k); var moved := MovedFrom(st, ids, cutoff, clock, k);
      st'.pending == Reversed(moved) + st.pending && st'.dead == st.dead && |out| == |moved|
    decreases |ids|
  {
    if ids != [] {
      if Recoverable(st, ids[0], cutoff) {
        var st1 := RecoverOne(st, ids[0].id, clock(k));
        RecoveryPushes(st1, ids[1..], cutoff, clock, k + 1);
        var rest := MovedFrom(st1, ids[1..], cutoff, clock, k + 1);
        assert ([ids[0]] + rest)[1..] == rest;
        assert Reversed(rest) + ([ids[0]] + st.pending) == (Reversed(rest) + [ids[0]]) + st.pending;
      } else {
        RecoveryPushes(st, ids[1..], cutoff, clock, k + 1);
      }
    }
  }

  /**
   Whatever the lists hold and whatever the clock shows, recovery conserves the entries of
   pending and processing together: what it moves leaves `processing` and is pushed, in
   order, on `pending`; and it returns one payload for each moved entry.
   */
  lemma RecoveryConserves(st: Store, cutoff: Instant, clock: nat -> Instant)
    ensures var (st', out) := Recover(st, cutoff, clock);
      var moved := MovedFrom(st, st.processing, cutoff, clock, 0);
      && st'.pending == Reversed(moved) + st.pending
      && multiset(st'.processing) == multiset(st.processing) - multiset(moved)
      && multiset(st'.pending) + multiset(st'.processing) == multiset(st.pending) + multiset(st.processing)
      && st'.dead == st.dead && |out| == |moved|
  {
    RecoveryTakes(st, st.processing, cutoff, clock, 0);
    RecoveryPushes(st, st.processing, cutoff, clock, 0);
    ReversedSame(MovedFrom(st, st.processing, cutoff, clock, 0));
  }

  lemma {:induction false} ReversedSame(list: seq<Entry>)
    ensures multiset(Reversed(list)) == multiset(list) && |Reversed(list)| == |list|
  {
    if list != [] {
      ReversedSame(list[1..]);
      assert list == [list[0]] + list[1..];
    }
  }

  /** A recovered entry is fresh again; the others are as stale as before. */
  lemma RecoverOneSettles(st: Store, id: Uuid, now: Instant, cutoff: Instant, e: Entry)
    requires now >= cutoff
    ensures Recoverable(RecoverOne(st, id, now), e, cutoff) <==> e != Ref(id) && Recoverable(st, e, cutoff)
  {
  }

  /**
   With a clock that has reached the cutoff, recovery moves exactly the stale, readable
   entries of its snapshot, each once however often the snapshot lists it.
   */
  lemma {:induction false} RecoveryMovesTheStale(
      st: Store, ids: seq<Entry>, cutoff: Instant, clock: nat -> Instant, k: nat, e: Entry)
    requires forall n :: clock(n) >= cutoff
    ensures CopiesIn(MovedFrom(st, ids, cutoff, clock, k), e) ==
      if e in ids && Recoverable(st, e, cutoff) then 1 else 0
    decreases |ids|
  {
    if ids != [] {
      assert ids == [ids[0]] + ids[1..];
      if Recoverable(st, ids[0], cutoff) {
        var st1 := RecoverOne(st, ids[0].id, clock(k));
        RecoveryMovesTheStale(st1, ids[1..], cutoff, clock, k + 1, e);
        RecoverOneSettles(st, ids[0].id, clock(k), cutoff, e);
      } else {
        RecoveryMovesTheStale(st, ids[1..], cutoff, clock, k + 1, e);
      }
    }
  }

  /** The whole recovery: LRANGE, then the loop. */
  function Recover(st: Store, cutoff: Instant, clock: nat -> Instant): (Store, seq<Task>) {
    RecoverFrom(st, st.processing, cutoff, clock, 0)
  }

  ghost function RecoveredIds(st: Store, cutoff: Instant): set<Uuid> {
    set id | id in IdsIn(st.processing) && Recoverable(st, Ref(id), cutoff)
  }

  /** An entry that recovery leaves where it is: unparsable, without a stamp, stamped at the cutoff or later, or unreadable. */
  predicate Left(st: Store, e: Entry, cutoff: Instant) {
    match e
    case Junk(_) => true
    case Ref(id) =>
      || (match RecordOf(st, id).updatedAt
          case None => true
          case Some(BadStamp(_)) => true
          case Some(At(t)) => t >= cutoff)
      || (match RecordOf(st, id).data
          case None => true
          case Some(Corrupt(_)) => true
          case Some(Json(_)) => false)
  }

  lemma {:induction false} LeftIsNotMoved(
      st: Store, ids: seq<Entry>, cutoff: Instant, clock: nat -> Instant, k: nat, e: Entry)
    requires Left(st, e, cutoff)
    ensures e !in MovedFrom(st, ids, cutoff, clock, k)
    decreases |ids|
  {
    if ids != [] {
      if Recoverable(st, ids[0], cutoff) {
        var st1 := RecoverOne(st, ids[0].id, clock(k));
        assert e != ids[0];
        OtherIsLeft(st, ids[0].id, clock(k), cutoff, e);
        LeftIsNotMoved(st1, ids[1..], cutoff, clock, k + 1, e);
      } else {
        LeftIsNotMoved(st, ids[1..], cutoff, clock, k + 1, e);
      }
    }
  }

  lemma OtherIsLeft(st: Store, id: Uuid, now: Instant, cutoff: Instant, e: Entry)
    requires Left(st, e, cutoff) && e != Ref(id)
    ensures Left(RecoverOne(st, id, now), e, cutoff)
  {
  }

  /**
   On any store: such an entry stays in processing with all its copies. With a clock that has
   reached the cutoff, any other entry of the snapshot leaves it once.
   */
  lemma RecoveryLeaves(st: Store, cutoff: Instant, clock: nat -> Instant, e: Entry)
    ensures var st' := Recover(st, cutoff, clock).0;
      && (Left(st, e, cutoff) ==> CopiesIn(st'.processing, e) == CopiesIn(st.processing, e))
      && (!Left(st, e, cutoff) && e in st.processing && (forall n :: clock(n) >= cutoff) ==>
            CopiesIn(st'.processing, e) == CopiesIn(st.processing, e) - 1
            && CopiesIn(st'.pending, e) == CopiesIn(st.pending, e) + 1)
  {
    var moved := MovedFrom(st, st.processing, cutoff, clock, 0);
    RecoveryConserves(st, cutoff, clock);
    if Left(st, e, cutoff) {
      LeftIsNotMoved(st, st.processing, cutoff, clock, 0, e);
      assert multiset(moved)[e] == 0;
    } else if e in st.processing && forall n :: clock(n) >= cutoff {
      RecoveryMovesTheStale(st, st.processing, cutoff, clock, 0, e);
      ReversedSame(moved);
    }
  }

  /**
   A dequeue protects what it takes: after a successful dequeue of `id` at time `now`, on any
   store, a recovery with a cutoff of at most `now` leaves all its entries in processing; one
   with a later cutoff takes it.
   */
  lemma DequeueProtects(st: Store, t: Task, id: Uuid, now: Instant, cutoff: Instant, clock: nat -> Instant)
    requires st.pending != [] && st.pending[|st.pending| - 1] == Ref(id) && Dequeue(st, now).1 == Ok(Some(t))
    ensures var st1 := Dequeue(st, now).0; var st2 := Recover(st1, cutoff, clock).0;
      && Ref(id) in st1.processing
      && (cutoff <= now ==> CopiesIn(st2.processing, Ref(id)) == CopiesIn(st1.processing, Ref(id)))
      && (cutoff > now && (forall n :: clock(n) >= cutoff) ==>
            CopiesIn(st2.processing, Ref(id)) == CopiesIn(st1.processing, Ref(id)) - 1)
  {
    var st1 := Dequeue(st, now).0;
    assert st1.processing[0] == Ref(id);
    RecoveryLeaves(st1, cutoff, clock, Ref(id));
  }

  lemma RecoverOneKeepsData(st: Store, id: Uuid, now: Instant, x: Uuid)
    ensures RecordOf(RecoverOne(st, id, now), x).data == RecordOf(st, x).data
  {
  }

  predicate IsPayload(st: Store, e: Entry, t: Task) { e.Ref? && RecordOf(st, e.id).data == Some(Json(t)) }

  /** `out` are the payloads of `entries`, one by one. */
  predicate Payloads(st: Store, entries: seq<Entry>, out: seq<Task>) {
    |entries| == |out| && forall i :: 0 <= i < |entries| ==> IsPayload(st, entries[i], out[i])
  }

  lemma PayloadsStep(st: Store, st1: Store, e: Entry, t: Task, entries: seq<Entry>, out: seq<Task>)
    requires IsPayload(st, e, t) && Payloads(st1, entries, out)
    requires forall x :: RecordOf(st1, x).data == RecordOf(st, x).data
    ensures Payloads(st, [e] + entries, [t] + out)
  {
  }

  /** Recovery returns the payloads of the entries it moves, in order. */
  lemma {:induction false} RecoveryReturns(st: Store, ids: seq<Entry>, cutoff: Instant, clock: nat -> Instant, k: nat)
    ensures Payloads(st, MovedFrom(st, ids, cutoff, clock, k), RecoverFrom(st, ids, cutoff, clock, k).1)
    decreases |ids|
  {
    if ids == [] {
    } else if Recoverable(st, ids[0], cutoff) {
      var st1 := RecoverOne(st, ids[0].id, clock(k));
      RecoveryReturns(st1, ids[1..], cutoff, clock, k + 1);
      forall x ensures RecordOf(st1, x).data == RecordOf(st, x).data {
        RecoverOneKeepsData(st, ids[0].id, clock(k), x);
      }
      PayloadsStep(st, st1, ids[0], TaskOf(st, ids[0].id), MovedFrom(st1, ids[1..], cutoff, clock, k + 1),
                   RecoverFrom(st1, ids[1..], cutoff, clock, k + 1).1);
    } else {
      RecoveryReturns(st, ids[1..], cutoff, clock, k + 1);
    }
  }

  lemma {:induction false} RecoveryKeepsData(
      st: Store, ids: seq<Entry>, cutoff: Instant, clock: nat -> Instant, k: nat, id: Uuid)
    requires RedisNoLoss.HasData(st, id)
    ensures RedisNoLoss.HasData(RecoverFrom(st, ids, cutoff, clock, k).0, id)
    decreases |ids|
  {
    if ids != [] {
      if Recoverable(st, ids[0], cutoff) {
        RecoveryKeepsData(RecoverOne(st, ids[0].id, clock(k)), ids[1..], cutoff, clock, k + 1, id);
      } else {
        RecoveryKeepsData(st, ids[1..], cutoff, clock, k + 1, id);
      }
    }
  }

  lemma RecoverPlaces(st: Store, cutoff: Instant, clock: nat -> Instant, id: Uuid)
    requires Copies(st, Ref(id)) <= 1 && forall n :: clock(n) >= cutoff
    ensures var st' := Recover(st, cutoff, clock).0;
      && Copies(st', Ref(id)) <= 1
      && (id in IdsIn(st'.processing) <==> id in IdsIn(st.processing) && !Recoverable(st, Ref(id), cutoff))
      && (id in IdsIn(st'.pending) <==> id in IdsIn(st.pending) || (id in IdsIn(st.processing) && Recoverable(st, Ref(id), cutoff)))
  {
    var st' := Recover(st, cutoff, clock).0;
    var moved := MovedFrom(st, st.processing, cutoff, clock, 0);
    RecoveryConserves(st, cutoff, clock);
    ReversedSame(moved);
    RecoveryMovesTheStale(st, st.processing, cutoff, clock, 0, Ref(id));
    assert CopiesIn(st'.pending, Ref(id)) == CopiesIn(moved, Ref(id)) + CopiesIn(st.pending, Ref(id));
    InIdsIn(st.processing, id);
    InIdsIn(st.pending, id);
    InIdsIn(st'.processing, id);
    InIdsIn(st'.pending, id);
  }

  lemma RecoverRefines(st: Store, finished: set<Uuid>, cutoff: Instant, clock: nat -> Instant)
    requires Sound(st) && forall n :: clock(n) >= cutoff
    ensures var st' := Recover(st, cutoff, clock).0;
      Sound(st') && Abs.Does(View(st, finished), Abs.Reclaimed(RecoveredIds(st, cutoff)), View(st', finished))
  {
    var st' := Recover(st, cutoff, clock).0;
    var moved := RecoveredIds(st, cutoff);
    RecoveredKnown(st, cutoff, clock);
    RecoveryConserves(st, cutoff, clock);
    forall id: Uuid
      ensures Copies(st', Ref(id)) <= 1
      ensures id in IdsIn(st'.processing) <==> id in IdsIn(st.processing) - moved
      ensures id in IdsIn(st'.pending) <==> id in IdsIn(st.pending) + moved
    {
      assert Copies(st, Ref(id)) <= 1;
      RecoverPlaces(st, cutoff, clock, id);
    }
    assert IdsIn(st'.processing) == IdsIn(st.processing) - moved;
    assert IdsIn(st'.pending) == IdsIn(st.pending) + moved;
  }

  lemma RecoveredKnown(st: Store, cutoff: Instant, clock: nat -> Instant)
    requires Sound(st)
    ensures RedisNoLoss.StoreKnown(Recover(st, cutoff, clock).0)
  {
    var st' := Recover(st, cutoff, clock).0;
    RecoveryConserves(st, cutoff, clock);
    forall e | e in st'.pending || e in st'.processing || e in st'.dead
      ensures e.Ref? && RedisNoLoss.HasData(st', e.id)
    {
      assert e in multiset(st'.pending) + multiset(st'.processing) || e in st'.dead;
      assert e in st.pending || e in st.processing || e in st.dead;
      RecoveryKeepsData(st, st.processing, cutoff, clock, 0, e.id);
    }
  }
}
