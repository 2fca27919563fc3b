/**
 The Redis keys of the task queue and the commands that change them: the lists `pending`,
 `processing` and `dead`, and one hash per task. Every other Redis module is written in
 terms of these commands, so a command is defined once.
 */
module RedisStore {
  import opened Commons

  type Uuid = int
  type Instant = int

  /** The queue payload. `source` stands for the fields the queue only carries along. */
  datatype Task = Task(taskId: Uuid, imageId: Uuid, source: string, retryCount: int, maxRetries: int)

  /** The retries a task is enqueued with. */
  function Budget(t: Task): nat {
    if t.retryCount < t.maxRetries then t.maxRetries - t.retryCount else 0
  }

  const NACK_ERROR := "nack: task failed"
  const RECOVERED := "recovered: stale"

  /** A list element: the text of a task id, or text that does not parse as one. */
  datatype Entry = Ref(id: Uuid) | Junk(text: string)

  datatype Status = Pending | Processing | Done | Dead
  datatype Data = Json(task: Task) | Corrupt(text: string)
  datatype Stamp = At(t: Instant) | BadStamp(text: string)

  /** The fields of the hash `pichost:task:{id}`; an absent field is `None`. */
  datatype Record = Record(
    data: Option<Data>, status: Option<Status>, createdAt: Option<Stamp>, updatedAt: Option<Stamp>,
    error: Option<string>)

  const NO_RECORD := Record(None, None, None, None, None)

  /** Index 0 of a list is its left end. */
  datatype Store = Store(pending: seq<Entry>, processing: seq<Entry>, dead: seq<Entry>, hash: map<Uuid, Record>)

  const EMPTY := Store([], [], [], map[])

  // ---- Lists ----

  /** LREM key 1 e: drop the leftmost occurrence of `e`, if there is one. */
  function LRem(list: seq<Entry>, e: Entry): (r: seq<Entry>)
    ensures multiset(r) == multiset(list) - multiset{e}
    ensures e !in list ==> r == list
    ensures forall x :: x in r ==> x in list
  {
    if list == [] then []
    else if list[0] == e then
      assert list == [e] + list[1..];
      list[1..]
    else
      assert list == [list[0]] + list[1..];
      [list[0]] + LRem(list[1..], e)
  }

  /** It is the leftmost one that goes. */
  lemma {:induction false} LRemIsLeftmost(list: seq<Entry>, e: Entry, i: nat)
    requires i < |list| && list[i] == e && e !in list[..i]
    ensures LRem(list, e) == list[..i] + list[i + 1..]
  {
    if i > 0 {
      assert list[0] == list[..i][0];
      assert list[1..][..i - 1] == list[..i][1..];
      LRemIsLeftmost(list[1..], e, i - 1);
      TailSplit(list, i);
    }
  }

  lemma TailSplit(list: seq<Entry>, i: nat)
    requires 0 < i < |list|
    ensures [list[0]] + (list[1..][..i - 1] + list[1..][i..]) == list[..i] + list[i + 1..]
  {
  }

  /** An entry just pushed is the one that LREM takes. */
  lemma LRemUndoesPush(list: seq<Entry>, e: Entry)
    ensures LRem([e] + list, e) == list
  {
    assert ([e] + list)[1..] == list;
  }

  /** BRPOPLPUSH pending processing, on a non-empty `pending`. */
  function PopPush(st: Store): Store
    requires st.pending != []
  {
    var last := |st.pending| - 1;
    st.(pending := st.pending[..last], processing := [st.pending[last]] + st.processing)
  }

  function PushPending(st: Store, e: Entry): Store { st.(pending := [e] + st.pending) }

  function PushDead(st: Store, e: Entry): Store { st.(dead := [e] + st.dead) }

  function RemProcessing(st: Store, e: Entry): Store { st.(processing := LRem(st.processing, e)) }

  // ---- Hashes ----

  function RecordOf(st: Store, id: Uuid): Record {
    if id in st.hash then st.hash[id] else NO_RECORD
  }

  function SetData(st: Store, id: Uuid, task: Task): Store {
    st.(hash := st.hash[id := RecordOf(st, id).(data := Some(Json(task)))])
  }

  function SetStatus(st: Store, id: Uuid, status: Status): Store {
    st.(hash := st.hash[id := RecordOf(st, id).(status := Some(status))])
  }

  function SetCreated(st: Store, id: Uuid, now: Instant): Store {
    st.(hash := st.hash[id := RecordOf(st, id).(createdAt := Some(At(now)))])
  }

  function SetUpdated(st: Store, id: Uuid, now: Instant): Store {
    st.(hash := st.hash[id := RecordOf(st, id).(updatedAt := Some(At(now)))])
  }

  function SetError(st: Store, id: Uuid, error: string): Store {
    st.(hash := st.hash[id := RecordOf(st, id).(error := Some(error))])
  }

  // ---- Reading ----

  /** The hash of `id` holds a readable payload. */
  predicate Readable(st: Store, id: Uuid) {
    RecordOf(st, id).data.Some? && RecordOf(st, id).data.value.Json?
  }

  function TaskOf(st: Store, id: Uuid): Task
    requires Readable(st, id)
  {
    RecordOf(st, id).data.value.task
  }

  /** The recovery test: a parseable `updated_at` strictly before the cutoff. */
  predicate Stale(st: Store, id: Uuid, cutoff: Instant) {
    var stamp := RecordOf(st, id).updatedAt;
    stamp.Some? && stamp.value.At? && stamp.value.t < cutoff
  }

  // ---- Counting ----

  function CopiesIn(list: seq<Entry>, e: Entry): nat { multiset(list)[e] }

  /** How often an entry occurs in the three lists together. */
  function Copies(st: Store, e: Entry): nat {
    CopiesIn(st.pending, e) + CopiesIn(st.processing, e) + CopiesIn(st.dead, e)
  }

  lemma PopMovesOne(st: Store, e: Entry)
    requires st.pending != []
    ensures var last := st.pending[|st.pending| - 1]; var one := if e == last then 1 else 0;
      && CopiesIn(PopPush(st).pending, e) == CopiesIn(st.pending, e) - one
      && CopiesIn(PopPush(st).processing, e) == CopiesIn(st.processing, e) + one
      && PopPush(st).dead == st.dead
  {
    var last := |st.pending| - 1;
    assert st.pending == st.pending[..last] + [st.pending[last]];
  }
}
