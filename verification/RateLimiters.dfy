/**
 The two limiters as objects over their stores. Each keeps, for the proof only, the times at
 which every key was hit; what it stores and what it answers is then a function of those times.
 */
module RateLimiters {
  import opened Commons
  import opened RateLimits

  datatype Verdict = Verdict(allowed: bool, retryAfter: nat)

  /** What the link to the store does during one check. */
  datatype Link = Up | Down | LostAfterCount

  datatype LimiterError = StoreFailed

  type Subject = (string, string)

  /** The hit times of one subject so far. */
  function HitsOf(hits: map<Subject, seq<nat>>, who: Subject): seq<nat> {
    if who in hits then hits[who] else []
  }

  lemma {:induction false} InBucketAppend(times: seq<nat>, t: nat, window: nat, b: nat, n: nat)
    requires window > 0 && n <= |times|
    ensures InBucket(times + [t], window, b, n) == InBucket(times, window, b, n)
  {
    if n > 0 {
      InBucketAppend(times, t, window, b, n - 1);
      assert (times + [t])[n - 1] == times[n - 1];
    }
  }

  lemma {:induction false} RedisCountAppend(times: seq<nat>, t: nat, window: nat, i: nat)
    requires i < |times|
    ensures RedisCount(times + [t], window, i) == RedisCount(times, window, i)
  {
    if i > 0 {
      RedisCountAppend(times, t, window, i - 1);
    }
  }

  /** The store's answer to the count that a check gets back. */
  function VerdictOf(count: nat, limit: nat, wait: nat): Verdict {
    if count <= limit then Verdict(true, 0) else Verdict(false, wait)
  }

  /** `limiter_check`: a limiter that fails lets the request through. */
  method LimiterCheck(answer: Result<Verdict, LimiterError>) returns (v: Verdict)
    ensures answer.Ok? ==> v == answer.value
    ensures answer.Err? ==> v.allowed && v.retryAfter == 0
  {
    match answer {
      case Ok(value) => v := value;
      case Err(_) => v := Verdict(true, 0);
    }
  }

  // ---- SQLite ----

  class SqliteRateLimiter {
    const window: nat
    var counts: map<(string, string, nat), nat>
    ghost var hits: map<Subject, seq<nat>>

    ghost predicate Valid()
      reads this
    {
      && window > 0
      && forall p: string, k: string, b: nat :: Stored(p, k, b) == InBucket(HitsOf(hits, (p, k)), window, b, |HitsOf(hits, (p, k))|)
    }

    /** The count column of one row, zero where there is no row. */
    function Stored(p: string, k: string, b: nat): nat
      reads this
    {
      if (p, k, b) in counts then counts[(p, k, b)] else 0
    }

    constructor (window: nat)
      requires window > 0
      ensures Valid() && this.window == window && hits == map[]
    {
      this.window := window;
      counts := map[];
      hits := map[];
    }

    /** `check`: one upsert of the bucket's row, answered with the new count. */
    method Check(policy: string, key: string, limit: nat, now: nat, link: Link)
      returns (r: Result<Verdict, LimiterError>)
      requires Valid()
      modifies this
      ensures Valid()
      ensures link == Down ==> r == Err(StoreFailed) && hits == old(hits) && counts == old(counts)
      ensures link != Down ==>
        hits == old(hits)[(policy, key) := old(HitsOf(hits, (policy, key))) + [now]]
      ensures link == LostAfterCount ==> r == Err(StoreFailed)
      ensures link == Up ==>
        var times := HitsOf(hits, (policy, key));
        && r.Ok?
        && (r.value.allowed <==> SqlAllows(times, window, limit, |times| - 1))
        && (r.value.allowed <==> |HitsIn(times, window, Bucket(now, window), |times| - 1)| < limit)
        && r.value.retryAfter == if r.value.allowed then 0 else window
    {
      if link == Down {
        return Err(StoreFailed);
      }
      var row := (policy, key, Bucket(now, window));
      var count := if row in counts then counts[row] + 1 else 1;
      counts := counts[row := count];
      ghost var was := HitsOf(hits, (policy, key));
      hits := hits[(policy, key) := was + [now]];
      forall p: string, k: string, b: nat
        ensures Stored(p, k, b) == InBucket(HitsOf(hits, (p, k)), window, b, |HitsOf(hits, (p, k))|)
      {
        assert old(Stored(p, k, b)) == InBucket(HitsOf(old(hits), (p, k)), window, b, |HitsOf(old(hits), (p, k))|);
        if (p, k) == (policy, key) {
          InBucketAppend(was, now, window, b, |was|);
        }
      }
      if link == LostAfterCount {
        return Err(StoreFailed);
      }
      assert count == Stored(policy, key, Bucket(now, window));
      SqlAllowsFirstOfBucket(was + [now], window, limit, |was|);
      r := Ok(VerdictOf(count, limit, window));
    }
  }

  // ---- Redis ----

  /** `rl_key`. */
  function RlKey(policy: string, suffix: string): string {
    "rl:" + policy + ":" + suffix
  }

  /** The policies in use are plain words, so two subjects never share a counter. */
  lemma {:induction false} RlKeyInjective(p: string, k: string, p': string, k': string)
    requires ':' !in p && ':' !in p' && RlKey(p, k) == RlKey(p', k')
    ensures p == p' && k == k'
  {
    var whole := RlKey(p, k);
    assert whole[3..] == p + ":" + k && whole[3..] == p' + ":" + k';
    FirstColon(p, k, p', k');
  }

  lemma FirstColon(p: string, k: string, p': string, k': string)
    requires ':' !in p && ':' !in p' && p + ":" + k == p' + ":" + k'
    ensures p == p' && k == k'
  {
    var s := p + ":" + k;
    assert s[|p|] == ':' && s[|p'|] == ':';
    assert |p| == |p'|;
    assert p == s[..|p|] && p' == s[..|p'|];
    assert k == s[|p| + 1..] && k' == s[|p'| + 1..];
  }

  /** Colons inside a policy would let two subjects share one. */
  lemma ColonsCollide()
    ensures RlKey("a:b", "c") == RlKey("a", "b:c") == "rl:a:b:c"
  {
    assert RlKey("a:b", "c") == "rl:a:b:c" && RlKey("a", "b:c") == "rl:a:b:c";
  }

  /** A counter key; INCR creates it without an expiry and EXPIRE gives it one. */
  datatype Counter = Counter(count: nat, expires: Option<nat>)

  class RedisRateLimiter {
    const window: nat
    var keys: map<string, Counter>
    ghost var hits: map<Subject, seq<nat>>

    ghost predicate Tracks(p: string, k: string)
      reads this
    {
      var times := HitsOf(hits, (p, k));
      if times == [] then RlKey(p, k) !in keys
      else
        && RlKey(p, k) in keys
        && keys[RlKey(p, k)] == Counter(RedisCount(times, window, |times| - 1), Some(times[|times| - 1] + Span(window)))
    }

    ghost predicate Valid()
      reads this
    {
      forall p: string, k: string :: ':' !in p ==> Tracks(p, k)
    }

    constructor (window: nat)
      ensures Valid() && this.window == window && hits == map[]
    {
      this.window := window;
      keys := map[];
      hits := map[];
    }

    /** INCR: a key past its expiry counts from zero again. */
    method Incr(key: string, now: nat) returns (count: nat)
      modifies this`keys
      ensures keys == old(keys)[key := Counter(count, if old(Live(key, now)) then old(keys[key].expires) else None)]
      ensures count == if old(Live(key, now)) then old(keys[key].count) + 1 else 1
    {
      if Live(key, now) {
        count := keys[key].count + 1;
        keys := keys[key := Counter(count, keys[key].expires)];
      } else {
        count := 1;
        keys := keys[key := Counter(1, None)];
      }
    }

    predicate Live(key: string, now: nat)
      reads this
    {
      key in keys && (keys[key].expires.None? || now < keys[key].expires.value)
    }

    /** INCR and EXPIRE, the latter with a full window on every hit. */
    method Hit(policy: string, key: string, now: nat)
      requires Valid() && ':' !in policy
      modifies this
      ensures Valid()
      ensures hits == old(hits)[(policy, key) := old(HitsOf(hits, (policy, key))) + [now]]
    {
      assert Tracks(policy, key);
      var name := RlKey(policy, key);
      var count := Incr(name, now);
      keys := keys[name := Counter(keys[name].count, Some(now + Span(window)))];
      ghost var was := HitsOf(hits, (policy, key));
      hits := hits[(policy, key) := was + [now]];
      if was != [] {
        RedisCountAppend(was, now, window, |was| - 1);
      }
      assert Tracks(policy, key);
      forall p: string, k: string | ':' !in p ensures Tracks(p, k) {
        assert old(Tracks(p, k));
        if RlKey(p, k) == name {
          RlKeyInjective(p, k, policy, key);
        }
      }
    }

    /**
     `check`: INCR, EXPIRE, then GET. The wait it reports is the TTL that this very EXPIRE has
     just set, so a denied client is always told a full window.
     */
    method Check(policy: string, key: string, limit: nat, now: nat, link: Link)
      returns (r: Result<Verdict, LimiterError>)
      requires Valid() && ':' !in policy
      modifies this
      ensures Valid()
      ensures link == Down ==> r == Err(StoreFailed) && hits == old(hits) && keys == old(keys)
      ensures link != Down ==>
        hits == old(hits)[(policy, key) := old(HitsOf(hits, (policy, key))) + [now]]
      ensures link == LostAfterCount ==> r == Err(StoreFailed)
      ensures link == Up ==>
        var times := HitsOf(hits, (policy, key));
        && r.Ok?
        && (r.value.allowed <==> RedisAllows(times, window, limit, |times| - 1))
        && (forall k :: BeginsLast(times, window, k) ==> (r.value.allowed <==> |times| - 1 - k < limit))
        && r.value.retryAfter == if r.value.allowed then 0 else window
    {
      if link == Down {
        return Err(StoreFailed);
      }
      Hit(policy, key, now);
      if link == LostAfterCount {
        return Err(StoreFailed);
      }
      assert Tracks(policy, key);
      var name := RlKey(policy, key);
      ghost var times := HitsOf(hits, (policy, key));
      forall k | BeginsLast(times, window, k)
        ensures RedisAllows(times, window, limit, |times| - 1) <==> |times| - 1 - k < limit
      {
        RedisAllowsFirstOfRun(times, window, limit, k, |times| - 1);
      }
      var ttl := (keys[name].expires.value - now) / 1000;
      r := Ok(VerdictOf(keys[name].count, limit, ttl));
    }
  }

  /** Both limiters asked at the same times: the Redis one never lets through what SQLite denies. */
  method CheckBoth(sql: SqliteRateLimiter, redis: RedisRateLimiter, policy: string, key: string, limit: nat, now: nat)
    returns (bySql: Verdict, byRedis: Verdict)
    requires sql.Valid() && redis.Valid() && ':' !in policy && sql.window == redis.window
    requires HitsOf(sql.hits, (policy, key)) == HitsOf(redis.hits, (policy, key))
    requires Ordered(HitsOf(sql.hits, (policy, key)) + [now])
    modifies sql, redis
    ensures byRedis.allowed ==> bySql.allowed
  {
    ghost var times := HitsOf(sql.hits, (policy, key)) + [now];
    var r1 := sql.Check(policy, key, limit, now, Up);
    var r2 := redis.Check(policy, key, limit, now, Up);
    SqlCountBelowRedis(times, sql.window, |times| - 1);
    bySql, byRedis := r1.value, r2.value;
  }
}
