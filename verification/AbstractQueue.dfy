/**
 The queue both backends implement, on ids: an id is pending, in processing, dead or
 finished. A dequeue may take any pending id, because the backends order them differently.
 */
module AbstractQueue {
  import opened Commons

  datatype NackAction = Retry | DeadLetter

  datatype Queue = Queue(pending: set<int>, processing: set<int>, dead: set<int>, finished: set<int>)

  /** An operation together with what it returned. */
  datatype Op =
    | Enqueued(id: int)
    | Dequeued(taken: Option<int>)
    | Acked(id: int)
    | Nacked(id: int, retry: int, max: int, action: NackAction)
    | Reclaimed(moved: set<int>)

  ghost predicate Fresh(q: Queue, id: int) {
    id !in q.pending && id !in q.processing && id !in q.dead && id !in q.finished
  }

  /** Acks and nacks come from the holder, so their id is in processing. */
  ghost predicate Does(q: Queue, op: Op, q': Queue) {
    match op
    case Enqueued(id) => Fresh(q, id) && q' == q.(pending := q.pending + {id})
    case Dequeued(None) => q.pending == {} && q' == q
    case Dequeued(Some(id)) =>
      id in q.pending && q' == q.(pending := q.pending - {id}, processing := q.processing + {id})
    case Acked(id) =>
      id in q.processing && q' == q.(processing := q.processing - {id}, finished := q.finished + {id})
    case Nacked(id, retry, max, action) =>
      id in q.processing
      && (action == if retry < max then Retry else DeadLetter)
      && q' == (if retry < max then q.(processing := q.processing - {id}, pending := q.pending + {id})
                else q.(processing := q.processing - {id}, dead := q.dead + {id}))
    case Reclaimed(moved) =>
      moved <= q.processing && q' == q.(processing := q.processing - moved, pending := q.pending + moved)
  }

  /** No id is in two places. */
  ghost predicate Partitioned(q: Queue) {
    && q.pending !! q.processing && q.pending !! q.dead && q.pending !! q.finished
    && q.processing !! q.dead && q.processing !! q.finished && q.dead !! q.finished
  }

  ghost function Ids(q: Queue): set<int> { q.pending + q.processing + q.dead + q.finished }

  /** A run of the abstract queue: `qs[i]` is its state before `ops[i]`. */
  ghost predicate Trace(qs: seq<Queue>, ops: seq<Op>) {
    |qs| == |ops| + 1 && forall i :: 0 <= i < |ops| ==> Does(qs[i], ops[i], qs[i + 1])
  }

  /**
   The trace of operations alone determines the queue: two backends that start alike and
   answer alike end alike.
   */
  lemma {:induction false} SameOpsSameQueue(qs: seq<Queue>, qs': seq<Queue>, ops: seq<Op>)
    requires Trace(qs, ops) && Trace(qs', ops) && qs[0] == qs'[0]
    ensures qs == qs'
  {
    if ops != [] {
      var n := |ops| - 1;
      SameOpsSameQueue(qs[..n + 1], qs'[..n + 1], ops[..n]);
      assert qs[n] == qs[..n + 1][n] == qs'[..n + 1][n] == qs'[n];
      assert Does(qs[n], ops[n], qs[n + 1]) && Does(qs'[n], ops[n], qs'[n + 1]);
    }
  }

  /** In every run no id is in two places, and an id once enqueued is never lost. */
  lemma {:induction false} IdsAreKept(qs: seq<Queue>, ops: seq<Op>)
    requires Trace(qs, ops) && Partitioned(qs[0])
    ensures forall i :: 0 <= i < |qs| ==> Partitioned(qs[i]) && Ids(qs[0]) <= Ids(qs[i])
  {
    if ops != [] {
      var n := |ops| - 1;
      IdsAreKept(qs[..n + 1], ops[..n]);
      assert qs[..n + 1][n] == qs[n];
      assert Does(qs[n], ops[n], qs[n + 1]);
      assert Partitioned(qs[n + 1]) && Ids(qs[n]) <= Ids(qs[n + 1]);
      forall i | 0 <= i < |qs| ensures Partitioned(qs[i]) && Ids(qs[0]) <= Ids(qs[i]) {
        if i <= n {
          assert qs[..n + 1][i] == qs[i];
        } else {
          assert i == n + 1;
        }
      }
    }
  }
}
