/** The mutable limiter: each method is proved against the table functions of `RateLimiter`. The lock makes each
    method one atomic step; `now` is the clock reading the call passes in. */
module InMemoryLimiter {
  import opened Common
  import opened TokenBucket
  import opened R = RateLimiter

  lemma PutThenPop(t: Table, key: Key, b: Bucket)
    requires Wf(t) && key in t.buckets && t.order != [] && t.order[0] != key
    ensures key in PopFirst(t).buckets
    ensures PopFirst(Put(t, key, b)) == Put(PopFirst(t), key, b)
  {
    assert t.buckets[key := b] - {t.order[0]} == (t.buckets - {t.order[0]})[key := b];
  }

  /** Sweeping does not look at token counts, so taking the token before or after the sweep is the same. */
  lemma {:induction false} SweepIgnoresTokens(l: Limits, t: Table, key: Key, b: Bucket, now: real)
    requires Wf(t) && l.Valid() && key in t.buckets
    requires t.buckets[key].lastRefill == now == b.lastRefill
    ensures key in Sweep(l, t, now).buckets
    ensures Sweep(l, Put(t, key, b), now) == Put(Sweep(l, t, now), key, b)
    decreases |t.order|
  {
    hide Wf, PopFirst;
    KeyIsListed(t, key);
    if Idle(l, t.buckets[t.order[0]], now) {
      PutThenPop(t, key, b);
      PopFirstKeeps(t, key);
      SweepIgnoresTokens(l, PopFirst(t), key, b, now);
    }
  }

  lemma KeyIsListed(t: Table, key: Key)
    requires Wf(t) && key in t.buckets
    ensures t.order != [] && t.order[0] in t.buckets
  {
  }

  lemma PopFirstKeeps(t: Table, key: Key)
    requires Wf(t) && key in t.buckets && t.order != [] && t.order[0] != key
    ensures key in PopFirst(t).buckets && PopFirst(t).buckets[key] == t.buckets[key]
    ensures |PopFirst(t).order| < |t.order|
  {
  }

  class RateLimiter {
    const policy: Policy
    const limits: Limits
    var order: seq<Key>
    var buckets: map<Key, Bucket>
    var lastSweep: real

    ghost predicate Valid()
      reads this
    {
      limits.Valid() && Wf(Snapshot())
    }

    ghost function Snapshot(): Table
      reads this
    {
      Table(order, buckets, lastSweep)
    }

    constructor (perMinute: int, burst: int, limits: Limits, now: real)
      requires limits.Valid()
      ensures Valid() && policy == Policy(perMinute, burst) && this.limits == limits
      ensures Snapshot() == Table([], map[], now)
    {
      policy := Policy(perMinute, burst);
      this.limits := limits;
      order, buckets, lastSweep := [], map[], now;
    }

    /** `popitem(last=False)`. */
    method PopOldest()
      requires Valid() && order != []
      modifies `order, `buckets
      ensures Valid() && Snapshot() == PopFirst(old(Snapshot()))
    {
      buckets := buckets - {order[0]};
      order := order[1..];
    }

    method SweepIdleBuckets(now: real)
      requires Valid()
      modifies this
      ensures Valid() && Snapshot() == Sweep(limits, old(Snapshot()), now)
    {
      while order != []
        invariant Valid()
        invariant Sweep(limits, Snapshot(), now) == Sweep(limits, old(Snapshot()), now)
        decreases |order|
      {
        if now - buckets[order[0]].lastRefill < limits.idleTtl { break; }
        PopOldest();
      }
      lastSweep := now;
    }

    method EvictIfOverCapacity(now: real)
      requires Valid()
      modifies this
      ensures Valid() && Snapshot() == Evict(limits, old(Snapshot()), now)
    {
      if |order| < limits.maxKeys { return; }
      SweepIdleBuckets(now);
      ghost var swept := Snapshot();
      while |order| >= limits.maxKeys
        invariant Valid()
        invariant PopDownTo(limits.maxKeys - 1, Snapshot()) == PopDownTo(limits.maxKeys - 1, swept)
        decreases |order|
      {
        PopOldest();
      }
    }

    /** The bucket lookup at the head of `check`: move the key to the end, or create its bucket there. */
    method TouchBucket(key: Key, now: real)
      requires Valid()
      modifies this
      ensures Valid() && Snapshot() == Touch(policy, limits, old(Snapshot()), key, now)
    {
      if key in buckets {
        MoveToEndKeepsWf(Snapshot(), key);
        order := MoveToEnd(order, key);
      } else {
        EvictShrinks(limits, Snapshot(), now);
        EvictIfOverCapacity(now);
        order := order + [key];
        buckets := buckets[key := Bucket(policy.Capacity(), now)];
      }
    }

    method Check(key: Key, now: real) returns (v: Verdict)
      requires Valid()
      modifies this
      ensures Valid() && (Snapshot(), v) == R.Check(policy, limits, old(Snapshot()), key, now)
    {
      hide Wf, Touch, Sweep, Earned, RetryAfter;
      TouchBucket(key, now);
      ghost var touched := Snapshot();
      var elapsed := now - buckets[key].lastRefill;
      var tokens := Min(policy.Capacity(), buckets[key].tokens + Earned(policy, elapsed));
      ghost var one := MemTake(policy, Some(touched.buckets[key]), now);
      Write(key, Bucket(tokens, now));
      ghost var refilled := Snapshot();
      SweepIgnoresTokens(limits, refilled, key, one.0, now);
      assert Put(refilled, key, one.0) == Put(touched, key, one.0);
      if now - lastSweep >= limits.sweepInterval { SweepIdleBuckets(now); }
      if tokens >= 1.0 {
        Write(key, Bucket(tokens - 1.0, now));
        v := Verdict(true, 0.0);
      } else {
        v := Verdict(false, RetryAfter(policy, tokens));
      }
    }

    method Write(key: Key, b: Bucket)
      requires Valid() && key in buckets
      modifies `buckets
      ensures Valid() && Snapshot() == Put(old(Snapshot()), key, b)
    {
      buckets := buckets[key := b];
    }

    method Refund(key: Key)
      requires Valid()
      modifies `buckets
      ensures Valid() && Snapshot() == R.Refund(policy, old(Snapshot()), key)
      ensures key !in old(buckets) ==> buckets == old(buckets)
      ensures key in old(buckets) ==>
                && buckets.Keys == old(buckets).Keys && (forall k :: k in buckets && k != key ==> buckets[k] == old(buckets)[k])
                && buckets[key].lastRefill == old(buckets)[key].lastRefill
                && buckets[key].tokens == (if old(buckets)[key].tokens + 1.0 <= policy.Capacity()
                                           then old(buckets)[key].tokens + 1.0 else policy.Capacity())
    {
      if key in buckets {
        Write(key, Bucket(Min(policy.Capacity(), buckets[key].tokens + 1.0), buckets[key].lastRefill));
      }
    }
  }
}
