/**
 The two rate limiters as functions of the times at which one key is hit, and what bounds
 they give. Times are milliseconds since the epoch; windows are whole seconds.
 */
module RateLimits {
  /** `window_start` of the SQLite limiter: the timestamp in seconds, divided by the window. */
  function Bucket(t: nat, window: nat): nat
    requires window > 0
  {
    t / 1000 / window
  }

  function Span(window: nat): nat { 1000 * window }

  predicate Ordered(times: seq<nat>) {
    forall i, j :: 0 <= i <= j < |times| ==> times[i] <= times[j]
  }

  /** How many of the first `n` hits fall in bucket `b`: the stored count of that bucket. */
  function InBucket(times: seq<nat>, window: nat, b: nat, n: nat): nat
    requires window > 0 && n <= |times|
  {
    if n == 0 then 0
    else InBucket(times, window, b, n - 1) + if Bucket(times[n - 1], window) == b then 1 else 0
  }

  /** The count the SQLite limiter gets back for hit `i`. */
  function SqlCount(times: seq<nat>, window: nat, i: nat): nat
    requires window > 0 && i < |times|
  {
    InBucket(times, window, Bucket(times[i], window), i + 1)
  }

  /** The count the Redis limiter gets back: the key expires one window after its last hit. */
  function RedisCount(times: seq<nat>, window: nat, i: nat): nat
    requires i < |times|
  {
    if i == 0 || times[i] >= times[i - 1] + Span(window) then 1 else RedisCount(times, window, i - 1) + 1
  }

  predicate SqlAllows(times: seq<nat>, window: nat, limit: nat, i: nat)
    requires window > 0 && i < |times|
  {
    SqlCount(times, window, i) <= limit
  }

  predicate RedisAllows(times: seq<nat>, window: nat, limit: nat, i: nat)
    requires i < |times|
  {
    RedisCount(times, window, i) <= limit
  }

  // ---- Buckets ----

  lemma BucketRange(t: nat, window: nat)
    requires window > 0
    ensures Bucket(t, window) * Span(window) <= t < (Bucket(t, window) + 1) * Span(window)
  {
    var s := t / 1000;
    var b := s / window;
    assert s == b * window + s % window;
    assert 1000 * (b * window) == b * (1000 * window);
    assert (b + 1) * (1000 * window) == 1000 * (b * window) + 1000 * window;
  }

  lemma Multiples(a: nat, b: nat, c: nat)
    requires a <= b
    ensures a * c <= b * c
  {
  }

  lemma BucketFrom(t: nat, window: nat, b: nat)
    requires window > 0
    ensures t < (b + 1) * Span(window) ==> Bucket(t, window) <= b
    ensures b * Span(window) <= t ==> b <= Bucket(t, window)
  {
    BucketRange(t, window);
    var c := Bucket(t, window);
    if b < c {
      Multiples(b + 1, c, Span(window));
    } else if c < b {
      Multiples(c + 1, b, Span(window));
    }
  }

  lemma SameBucketClose(t: nat, u: nat, window: nat)
    requires window > 0 && Bucket(t, window) == Bucket(u, window)
    ensures u < t + Span(window)
  {
    BucketRange(t, window);
    BucketRange(u, window);
    var b := Bucket(t, window);
    assert (b + 1) * Span(window) == b * Span(window) + Span(window);
  }

  lemma BucketMonotone(t: nat, u: nat, window: nat)
    requires window > 0 && t <= u
    ensures Bucket(t, window) <= Bucket(u, window)
  {
    BucketRange(u, window);
    BucketFrom(t, window, Bucket(u, window));
  }

  // ---- Redis is the stricter limiter ----

  /** No earlier hit lies in a bucket that its predecessor has left. */
  lemma {:induction false} NoneBefore(times: seq<nat>, window: nat, b: nat, n: nat)
    requires window > 0 && n <= |times| && Ordered(times)
    requires n > 0 ==> Bucket(times[n - 1], window) < b
    ensures InBucket(times, window, b, n) == 0
  {
    if n > 0 {
      if n > 1 {
        BucketMonotone(times[n - 2], times[n - 1], window);
      }
      NoneBefore(times, window, b, n - 1);
    }
  }

  /** All hits of one bucket lie in one unexpired generation of the Redis key. */
  lemma {:induction false} SqlCountBelowRedis(times: seq<nat>, window: nat, i: nat)
    requires window > 0 && i < |times| && Ordered(times)
    ensures SqlCount(times, window, i) <= RedisCount(times, window, i)
  {
    var b := Bucket(times[i], window);
    if i > 0 && Bucket(times[i - 1], window) == b {
      SqlCountBelowRedis(times, window, i - 1);
      SameBucketClose(times[i - 1], times[i], window);
    } else {
      if i > 0 {
        BucketMonotone(times[i - 1], times[i], window);
      }
      NoneBefore(times, window, b, i);
    }
  }

  /** On any ordered trace, whatever the Redis limiter allows the SQLite limiter allows too. */
  lemma RedisAllowsImpliesSqlAllows(times: seq<nat>, window: nat, limit: nat, i: nat)
    requires window > 0 && i < |times| && Ordered(times) && RedisAllows(times, window, limit, i)
    ensures SqlAllows(times, window, limit, i)
  {
    SqlCountBelowRedis(times, window, i);
  }

  /** The converse fails: one second into a new bucket Redis still counts the old hits. */
  lemma SqlIsNotRedis()
    ensures var times := [59_000, 60_000];
      Ordered(times) && SqlAllows(times, 60, 1, 1) && !RedisAllows(times, 60, 1, 1)
  {
    var times: seq<nat> := [59_000, 60_000];
    assert Bucket(59_000, 60) == 0 && Bucket(60_000, 60) == 1;
    assert InBucket(times, 60, 1, 1) == 0;
    assert RedisCount(times, 60, 0) == 1;
  }

  // ---- Counting ----

  /** As many numbers as get distinct ranks between 1 and `limit` are at most `limit`. */
  lemma {:induction false} RanksBound(s: set<int>, rank: int -> int, limit: nat)
    requires forall x :: x in s ==> 1 <= rank(x) <= limit
    requires forall x, y :: x in s && y in s && rank(x) == rank(y) ==> x == y
    ensures |s| <= limit
    decreases limit
  {
    if s != {} {
      NonEmptyRanked(s, rank, limit);
      if x :| x in s && rank(x) == limit {
        RanksBound(s - {x}, rank, limit - 1);
      } else {
        RanksBound(s, rank, limit - 1);
      }
    }
  }

  lemma NonEmptyRanked(s: set<int>, rank: int -> int, limit: nat)
    requires s != {} && forall x :: x in s ==> 1 <= rank(x) <= limit
    ensures limit > 0
  {
    if limit == 0 {
      assert forall x :: x !in s;
      assert false;
    }
  }

  /** The indices of the hits in the half-open interval [from, to) that `allowed` marks. */
  ghost function AllowedIn(times: seq<nat>, allowed: seq<bool>, from: nat, to: nat): set<int>
    requires |allowed| == |times|
  {
    set i | 0 <= i < |times| && allowed[i] && from <= times[i] < to
  }

  ghost predicate SqlAnswers(times: seq<nat>, window: nat, limit: nat, allowed: seq<bool>) {
    window > 0 && |allowed| == |times| && forall i :: 0 <= i < |times| ==> allowed[i] == SqlAllows(times, window, limit, i)
  }

  ghost predicate RedisAnswers(times: seq<nat>, window: nat, limit: nat, allowed: seq<bool>) {
    |allowed| == |times| && forall i :: 0 <= i < |times| ==> allowed[i] == RedisAllows(times, window, limit, i)
  }

  /** The hits before hit `n` that fall in bucket `b`. */
  function HitsIn(times: seq<nat>, window: nat, b: nat, n: nat): set<int>
    requires window > 0 && n <= |times|
  {
    set j | 0 <= j < n && b * 1000 * window <= times[j] < (b + 1) * 1000 * window
  }

  /** The count of a bucket is the number of its hits. */
  lemma {:induction false} InBucketCounts(times: seq<nat>, window: nat, b: nat, n: nat)
    requires window > 0 && n <= |times|
    ensures InBucket(times, window, b, n) == |HitsIn(times, window, b, n)|
  {
    if n > 0 {
      InBucketCounts(times, window, b, n - 1);
      InBucketIff(times[n - 1], window, b);
      var before := HitsIn(times, window, b, n - 1);
      assert HitsIn(times, window, b, n) == if Bucket(times[n - 1], window) == b then before + {n - 1} else before;
    }
  }

  lemma InBucketIff(t: nat, window: nat, b: nat)
    requires window > 0
    ensures Bucket(t, window) == b <==> b * 1000 * window <= t < (b + 1) * 1000 * window
  {
    BucketRange(t, window);
    BucketFrom(t, window, b);
    assert b * 1000 * window == b * Span(window) && (b + 1) * 1000 * window == (b + 1) * Span(window);
    if b * Span(window) <= t < (b + 1) * Span(window) {
      assert b <= Bucket(t, window) <= b;
    }
  }

  // ---- The SQLite limiter ----

  /** It allows exactly the hits that have fewer than `limit` predecessors in their bucket. */
  lemma SqlAllowsFirstOfBucket(times: seq<nat>, window: nat, limit: nat, i: nat)
    requires window > 0 && i < |times|
    ensures SqlAllows(times, window, limit, i) <==> |HitsIn(times, window, Bucket(times[i], window), i)| < limit
  {
    InBucketCounts(times, window, Bucket(times[i], window), i);
  }

  lemma {:induction false} InBucketGrows(times: seq<nat>, window: nat, b: nat, m: nat, n: nat)
    requires window > 0 && m <= n <= |times|
    ensures InBucket(times, window, b, m) <= InBucket(times, window, b, n)
  {
    if m < n {
      InBucketGrows(times, window, b, m, n - 1);
    }
  }

  lemma OneBucketBound(times: seq<nat>, window: nat, limit: nat, b: nat, s: set<int>)
    requires window > 0
    requires forall i :: i in s ==> 0 <= i < |times| && Bucket(times[i], window) == b && SqlAllows(times, window, limit, i)
    ensures |s| <= limit
  {
    var rank := (i: int) => if 0 <= i < |times| then InBucket(times, window, b, i + 1) else 0;
    forall i, j | i in s && j in s && rank(i) == rank(j) ensures i == j {
      if i < j {
        InBucketGrows(times, window, b, i + 1, j);
      } else if j < i {
        InBucketGrows(times, window, b, j + 1, i);
      }
    }
    RanksBound(s, rank, limit);
  }

  lemma {:induction false} ManyBucketsBound(times: seq<nat>, window: nat, limit: nat, first: nat, n: nat, s: set<int>)
    requires window > 0
    requires forall i :: i in s ==>
      0 <= i < |times| && first <= Bucket(times[i], window) < first + n && SqlAllows(times, window, limit, i)
    ensures |s| <= n * limit
  {
    if n == 0 {
      assert forall i :: i !in s;
    } else {
      var last := set i | i in s && Bucket(times[i], window) == first + n - 1;
      OneBucketBound(times, window, limit, first + n - 1, last);
      ManyBucketsBound(times, window, limit, first, n - 1, s - last);
      assert s == (s - last) + last;
      assert n * limit == (n - 1) * limit + limit;
    }
  }

  /** At most (n + 1) * limit hits are allowed in any half-open interval of n windows. */
  lemma SqlIntervalBound(times: seq<nat>, window: nat, limit: nat, allowed: seq<bool>, from: nat, n: nat)
    requires SqlAnswers(times, window, limit, allowed)
    ensures |AllowedIn(times, allowed, from, from + n * Span(window))| <= (n + 1) * limit
  {
    var s := AllowedIn(times, allowed, from, from + n * Span(window));
    var first := Bucket(from, window);
    forall i | i in s ensures first <= Bucket(times[i], window) < first + (n + 1) {
      BucketsOfInterval(from, times[i], window, n);
    }
    ManyBucketsBound(times, window, limit, first, n + 1, s);
  }

  /** An interval of `n` windows meets at most `n + 1` buckets. */
  lemma BucketsOfInterval(from: nat, t: nat, window: nat, n: nat)
    requires window > 0 && from <= t < from + n * Span(window)
    ensures Bucket(from, window) <= Bucket(t, window) < Bucket(from, window) + (n + 1)
  {
    var first := Bucket(from, window);
    BucketMonotone(from, t, window);
    BucketRange(from, window);
    assert (first + n + 1) * Span(window) == (first + 1) * Span(window) + n * Span(window);
    BucketFrom(t, window, first + n);
  }

  // ---- The Redis limiter ----

  /** Without a gap of a window, the count goes up by one at every hit. */
  lemma {:induction false} CountsUp(times: seq<nat>, window: nat, i: nat, j: nat)
    requires i <= j < |times| && NoGap(times, window, i, j)
    ensures RedisCount(times, window, j) == RedisCount(times, window, i) + (j - i)
  {
    if i < j {
      CountsUp(times, window, i, j - 1);
    }
  }

  /** Between hits `i` and `j` no window passes without a hit. */
  predicate NoGap(times: seq<nat>, window: nat, i: nat, j: nat)
    requires i <= j < |times|
  {
    forall k :: i < k <= j ==> times[k] < times[k - 1] + Span(window)
  }

  lemma {:induction false} RedisCountPositive(times: seq<nat>, window: nat, i: nat)
    requires i < |times|
    ensures RedisCount(times, window, i) >= 1
  {
    if i > 0 {
      RedisCountPositive(times, window, i - 1);
    }
  }

  /** At most `limit` hits are allowed in any half-open interval of one window. */
  lemma RedisIntervalBound(times: seq<nat>, window: nat, limit: nat, allowed: seq<bool>, from: nat)
    requires Ordered(times) && RedisAnswers(times, window, limit, allowed)
    ensures |AllowedIn(times, allowed, from, from + Span(window))| <= limit
  {
    var s := AllowedIn(times, allowed, from, from + Span(window));
    var rank := (i: int) => if 0 <= i < |times| then RedisCount(times, window, i) else 0;
    forall i | i in s ensures 1 <= rank(i) <= limit {
      RedisCountPositive(times, window, i);
    }
    forall i, j | i in s && j in s && rank(i) == rank(j) ensures i == j {
      if i < j {
        CountsUp(times, window, i, j);
      } else if j < i {
        CountsUp(times, window, j, i);
      }
    }
    RanksBound(s, rank, limit);
  }

  /** Hit `k` begins the run of hits that reaches `i`: a window without a hit lies before it, and none after. */
  predicate Begins(times: seq<nat>, window: nat, k: nat, i: nat)
    requires k <= i < |times|
  {
    (k == 0 || times[k] >= times[k - 1] + 1000 * window) && forall j :: k < j <= i ==> times[j] < times[j - 1] + 1000 * window
  }

  predicate BeginsLast(times: seq<nat>, window: nat, k: int) {
    0 <= k < |times| && Begins(times, window, k, |times| - 1)
  }

  /** There is exactly one such hit. */
  lemma {:induction false} SomeHitBegins(times: seq<nat>, window: nat, i: nat) returns (k: nat)
    requires i < |times|
    ensures k <= i && Begins(times, window, k, i)
    ensures forall l :: 0 <= l <= i && Begins(times, window, l, i) ==> l == k
  {
    if i == 0 || times[i] >= times[i - 1] + 1000 * window {
      k := i;
    } else {
      k := SomeHitBegins(times, window, i - 1);
      forall l | 0 <= l <= i && Begins(times, window, l, i) ensures l == k {
        assert l < i && Begins(times, window, l, i - 1);
      }
    }
  }

  /** The limiter lets through exactly the first `limit` hits of each run of hits. */
  lemma RedisAllowsFirstOfRun(times: seq<nat>, window: nat, limit: nat, k: nat, i: nat)
    requires k <= i < |times| && Begins(times, window, k, i)
    ensures RedisAllows(times, window, limit, i) <==> i - k < limit
  {
    CountsUp(times, window, k, i);
  }

  lemma {:induction false} GapResets(times: seq<nat>, window: nat, i: nat, j: nat) returns (k: nat)
    requires i < j < |times| && !NoGap(times, window, i, j)
    ensures i < k <= j && RedisCount(times, window, k) == 1
  {
    k :| i < k <= j && !(times[k] < times[k - 1] + Span(window));
  }

  /**
   Once the limiter has denied hit `i`, it denies every hit up to `j` exactly when no window
   without a hit lies between them: a client that keeps asking is never let in again.
   */
  lemma RedisDeniesUntilGap(times: seq<nat>, window: nat, limit: nat, i: nat, j: nat)
    requires limit > 0 && i <= j < |times| && !RedisAllows(times, window, limit, i)
    ensures (forall k :: i <= k <= j ==> !RedisAllows(times, window, limit, k)) <==> NoGap(times, window, i, j)
  {
    if NoGap(times, window, i, j) {
      forall k | i <= k <= j ensures !RedisAllows(times, window, limit, k) {
        CountsUp(times, window, i, k);
      }
    } else {
      var k := GapResets(times, window, i, j);
      assert RedisAllows(times, window, limit, k);
    }
  }
}
