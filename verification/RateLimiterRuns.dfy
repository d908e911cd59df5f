/** Whole runs of the in-memory limiter, against an ideal one that keeps every bucket forever. */
module RateLimiterRuns {
  import opened Common
  import opened TokenBucket
  import opened RateLimiter

  datatype Event = Check(key: Key, at: real) | Refund(key: Key)

  datatype Config = Config(policy: Policy, limits: Limits)

  function Step(c: Config, t: Table, e: Event): (r: (Table, Outcome))
    requires Wf(t) && c.limits.Valid()
    ensures Wf(r.0)
  {
    match e
    case Check(k, at) => var r := RateLimiter.Check(c.policy, c.limits, t, k, at); (r.0, Checked(r.1))
    case Refund(k) => (RateLimiter.Refund(c.policy, t, k), Refunded)
  }

  function Run(c: Config, t: Table, evs: seq<Event>): (r: (Table, seq<Outcome>))
    requires Wf(t) && c.limits.Valid()
    ensures Wf(r.0) && |r.1| == |evs|
    decreases |evs|
  {
    if evs == [] then (t, [])
    else
      var s := Step(c, t, evs[0]);
      var rest := Run(c, s.0, evs[1..]);
      (rest.0, [s.1] + rest.1)
  }

  /** One bucket per key, never swept and never evicted. */
  type Ideal = map<Key, Bucket>

  function IdealStep(p: Policy, m: Ideal, e: Event): (Ideal, Outcome) {
    match e
    case Check(k, at) => var r := MemTake(p, Lookup(m, k), at); (m[k := r.0], Checked(r.1))
    case Refund(k) => (if k in m then m[k := GiveBackTo(p, m[k])] else m, Refunded)
  }

  function IdealRun(p: Policy, m: Ideal, evs: seq<Event>): (r: (Ideal, seq<Outcome>))
    ensures |r.1| == |evs|
    decreases |evs|
  {
    if evs == [] then (m, [])
    else
      var s := IdealStep(p, m, evs[0]);
      var rest := IdealRun(p, s.0, evs[1..]);
      (rest.0, [s.1] + rest.1)
  }

  /** The clock after one event: checks read it, refunds do not. */
  function Later(e: Event, clock: real): real { if e.Check? then e.at else clock }

  ghost predicate Ordered(evs: seq<Event>, clock: real)
    decreases |evs|
  {
    evs == [] || (clock <= Later(evs[0], clock) && Ordered(evs[1..], Later(evs[0], clock)))
  }

  function Empty(start: real): Table { Table([], map[], start) }

  // ---------------------------------------------------------------- the sweep is invisible

  ghost predicate KeysWithin(evs: seq<Event>, keys: set<Key>) {
    forall i :: 0 <= i < |evs| ==> evs[i].key in keys
  }

  /** Buckets agree, except that the table may have lost buckets that have been idle for a whole TTL. */
  ghost predicate Agrees(c: Config, t: Table, m: Ideal, clock: real, keys: set<Key>) {
    && t.buckets.Keys <= m.Keys <= keys
    && (forall k :: k in m ==> 0.0 <= m[k].tokens <= c.policy.Capacity() && m[k].lastRefill <= clock)
    && (forall k :: k in t.buckets ==> t.buckets[k] == m[k])
    && (forall k :: k in m && k !in t.buckets ==> clock - m[k].lastRefill >= c.limits.idleTtl)
  }

  ghost predicate TtlRefillsAll(c: Config) {
    Earned(c.policy, c.limits.idleTtl) >= c.policy.Capacity()
  }

  lemma {:induction false} TableSize(t: Table)
    requires Wf(t)
    ensures |t.order| == |t.buckets|
    decreases |t.order|
  {
    if t.order == [] {
      assert t.buckets.Keys == {};
    } else {
      TableSize(PopFirst(t));
      assert t.buckets.Keys == PopFirst(t).buckets.Keys + {t.order[0]};
    }
  }

  /** A bucket idle for the TTL is as good as new. */
  lemma IdleIsFull(c: Config, b: Bucket, now: real)
    requires TtlRefillsAll(c) && c.policy.perMinute >= 0
    requires b.tokens >= 0.0 && Idle(c.limits, b, now)
    ensures MemTake(c.policy, Some(b), now) == MemTake(c.policy, None, now)
  {
    var p := c.policy;
    EarnedSplit(p, c.limits.idleTtl, now - b.lastRefill - c.limits.idleTtl);
    EarnedNonneg(p, now - b.lastRefill - c.limits.idleTtl);
    assert c.limits.idleTtl + (now - b.lastRefill - c.limits.idleTtl) == now - b.lastRefill;
    EarnedSplit(p, 0.0, 0.0);
    hide Earned;
  }

  lemma TakeStaysInRange(p: Policy, b: Option<Bucket>, now: real)
    requires p.perMinute >= 0
    requires b.Some? ==> 0.0 <= b.value.tokens <= p.Capacity() && b.value.lastRefill <= now
    ensures 0.0 <= MemTake(p, b, now).0.tokens <= p.Capacity() && MemTake(p, b, now).0.lastRefill == now
  {
    EarnedNonneg(p, now - (if b.Some? then b.value.lastRefill else now));
    hide Earned;
  }

  lemma AgreesAfterTake(c: Config, t: Table, r: Table, m: Ideal, clock: real, keys: set<Key>, k: Key, b: Bucket)
    requires Agrees(c, t, m, clock, keys) && k in keys && clock <= b.lastRefill
    requires k in r.buckets && r.buckets[k] == b && 0.0 <= b.tokens <= c.policy.Capacity()
    requires OthersShrunk(t, r, k) && OnlyIdleDropped(c.limits, t, r, k, b.lastRefill)
    ensures Agrees(c, r, m[k := b], b.lastRefill, keys)
  {
  }

  lemma AgreesCheck(c: Config, t: Table, m: Ideal, clock: real, keys: set<Key>, k: Key, at: real)
    requires c.limits.Valid() && Wf(t) && c.policy.perMinute >= 0 && TtlRefillsAll(c)
    requires Agrees(c, t, m, clock, keys) && |keys| <= c.limits.maxKeys && k in keys && clock <= at
    ensures var s, i := Step(c, t, Check(k, at)), IdealStep(c.policy, m, Check(k, at));
            s.1 == i.1 && Agrees(c, s.0, i.0, at, keys)
  {
    var one := MemTake(c.policy, Lookup(m, k), at);
    assert one == MemTake(c.policy, Lookup(t.buckets, k), at) by {
      if k in m && k !in t.buckets { IdleIsFull(c, m[k], at); }
      hide MemTake;
    }
    TakeStaysInRange(c.policy, Lookup(m, k), at);
    assert k in t.buckets || |t.order| < c.limits.maxKeys by {
      TableSize(t);
      if k !in t.buckets { SubsetSize(t.buckets.Keys + {k}, keys); }
    }
    hide RateLimiter.Check, Wf, MemTake, Agrees;
    CheckServesItsBucket(c.policy, c.limits, t, k, at);
    AgreesAfterTake(c, t, RateLimiter.Check(c.policy, c.limits, t, k, at).0, m, clock, keys, k, one.0);
  }

  lemma AgreesRefund(c: Config, t: Table, m: Ideal, clock: real, keys: set<Key>, k: Key)
    requires c.limits.Valid() && Wf(t) && Agrees(c, t, m, clock, keys)
    ensures var s, i := Step(c, t, Refund(k)), IdealStep(c.policy, m, Refund(k));
            s.1 == i.1 && Agrees(c, s.0, i.0, clock, keys)
  {
  }

  lemma {:induction false} SweepIsInvisibleFrom(c: Config, t: Table, m: Ideal, clock: real, keys: set<Key>, evs: seq<Event>)
    requires c.limits.Valid() && Wf(t) && c.policy.perMinute >= 0 && TtlRefillsAll(c)
    requires Agrees(c, t, m, clock, keys) && |keys| <= c.limits.maxKeys
    requires KeysWithin(evs, keys) && Ordered(evs, clock)
    ensures Run(c, t, evs).1 == IdealRun(c.policy, m, evs).1
    decreases |evs|
  {
    if evs != [] {
      match evs[0] {
        case Check(k, at) => AgreesCheck(c, t, m, clock, keys, k, at);
        case Refund(k) => AgreesRefund(c, t, m, clock, keys, k);
      }
      var s, i := Step(c, t, evs[0]), IdealStep(c.policy, m, evs[0]);
      assert KeysWithin(evs[1..], keys);
      hide Agrees, Step, IdealStep, Wf, TtlRefillsAll;
      SweepIsInvisibleFrom(c, s.0, i.0, Later(evs[0], clock), keys, evs[1..]);
    }
  }

  // ---------------------------------------------------------------- the table invariant

  ghost predicate SortedByRefill(t: Table)
    requires Wf(t)
  {
    forall i, j :: 0 <= i < j < |t.order| ==> t.buckets[t.order[i]].lastRefill <= t.buckets[t.order[j]].lastRefill
  }

  ghost predicate NotAfter(t: Table, clock: real) {
    forall k :: k in t.buckets ==> t.buckets[k].lastRefill <= clock
  }

  ghost predicate TokensInRange(p: Policy, t: Table) {
    p.perMinute >= 0 ==> forall k :: k in t.buckets ==> 0.0 <= t.buckets[k].tokens <= p.Capacity()
  }

  /** What every reachable table satisfies. */
  ghost predicate TableInv(c: Config, t: Table, clock: real) {
    && Wf(t) && SortedByRefill(t) && NotAfter(t, clock)
    && TokensInRange(c.policy, t)
    && |t.order| <= c.limits.maxKeys
  }

  lemma HeadIsOldest(t: Table, k: Key)
    requires Wf(t) && SortedByRefill(t) && k in t.buckets
    ensures t.order != [] && t.buckets[t.order[0]].lastRefill <= t.buckets[k].lastRefill
  {
    var i := IndexOf(t.order, k);
    assert i > 0 ==> t.buckets[t.order[0]].lastRefill <= t.buckets[t.order[i]].lastRefill;
  }

  lemma PopFirstFacts(t: Table)
    requires Wf(t) && SortedByRefill(t) && t.order != []
    ensures var r := PopFirst(t);
            && SortedByRefill(r) && r.buckets == t.buckets - {t.order[0]} && t.order[0] in t.buckets
            && |r.order| == |t.order| - 1
  {
  }

  /** Because the table is ordered, stopping at the first fresh bucket removes exactly the idle ones. */
  lemma {:induction false} SweepRemovesExactlyIdle(l: Limits, t: Table, now: real)
    requires Wf(t) && SortedByRefill(t)
    ensures var r := Sweep(l, t, now);
            && SortedByRefill(r) && Shrunk(t, r) && |r.order| <= |t.order|
            && (forall k :: k in t.buckets ==> (k in r.buckets <==> !Idle(l, t.buckets[k], now)))
            && r.lastSweep == now
    decreases |t.order|
  {
    if t.order == [] {
    } else if Idle(l, t.buckets[t.order[0]], now) {
      PopFirstFacts(t);
      hide Wf, SortedByRefill, PopFirst;
      SweepRemovesExactlyIdle(l, PopFirst(t), now);
    } else {
      forall k | k in t.buckets ensures !Idle(l, t.buckets[k], now) { HeadIsOldest(t, k); }
    }
  }

  lemma {:induction false} PopDownKeepsSorted(n: nat, t: Table)
    requires Wf(t) && SortedByRefill(t)
    ensures SortedByRefill(PopDownTo(n, t)) && Shrunk(t, PopDownTo(n, t))
    decreases |t.order|
  {
    if |t.order| > n {
      PopFirstFacts(t);
      hide Wf, SortedByRefill, PopFirst;
      PopDownKeepsSorted(n, PopFirst(t));
    }
  }

  /** A new key at a table full of fresh buckets evicts exactly the least recently checked key. */
  lemma EvictionRemovesLeastRecent(c: Config, t: Table, clock: real, now: real)
    requires c.limits.Valid() && TableInv(c, t, clock) && |t.order| == c.limits.maxKeys
    requires forall k :: k in t.buckets ==> !Idle(c.limits, t.buckets[k], now)
    ensures t.order != [] && Evict(c.limits, t, now).buckets == t.buckets - {t.order[0]} && Evict(c.limits, t, now).lastSweep == now
    ensures forall k :: k in t.buckets ==> t.buckets[t.order[0]].lastRefill <= t.buckets[k].lastRefill
  {
    var s := Sweep(c.limits, t, now);
    assert s == t.(lastSweep := now);
    assert PopDownTo(c.limits.maxKeys - 1, s) == PopFirst(s);
    forall k | k in t.buckets ensures t.buckets[t.order[0]].lastRefill <= t.buckets[k].lastRefill {
      HeadIsOldest(t, k);
    }
  }

  /** Making room for a new key: nothing happens while there is room; at a full table the idle buckets go and no others,
      and only if there is none does the least recently checked one. */
  lemma EvictionIsExact(c: Config, t: Table, clock: real, now: real)
    requires c.limits.Valid() && TableInv(c, t, clock)
    ensures var r := Evict(c.limits, t, now);
            && (|t.order| < c.limits.maxKeys ==> r == t)
            && (|t.order| == c.limits.maxKeys ==>
                  && Shrunk(t, r) && r.lastSweep == now
                  && if exists k :: k in t.buckets && Idle(c.limits, t.buckets[k], now)
                     then forall k :: k in t.buckets ==> (k in r.buckets <==> !Idle(c.limits, t.buckets[k], now))
                     else r.buckets == t.buckets - {t.order[0]})
  {
    if |t.order| == c.limits.maxKeys {
      if k :| k in t.buckets && Idle(c.limits, t.buckets[k], now) {
        hide TableInv, Evict, Idle;
        EvictIdle(c, t, clock, now, k);
      } else {
        EvictionRemovesLeastRecent(c, t, clock, now);
        hide TableInv, Evict, Idle, Sweep;
      }
    }
  }

  lemma EvictIdle(c: Config, t: Table, clock: real, now: real, gone: Key)
    requires c.limits.Valid() && TableInv(c, t, clock) && |t.order| == c.limits.maxKeys
    requires gone in t.buckets && Idle(c.limits, t.buckets[gone], now)
    ensures var r := Evict(c.limits, t, now);
            && Shrunk(t, r) && r.lastSweep == now
            && forall k :: k in t.buckets ==> (k in r.buckets <==> !Idle(c.limits, t.buckets[k], now))
  {
    hide Sweep, Idle, SortedByRefill;
    SweepRemovesExactlyIdle(c.limits, t, now);
    FewerKeys(t, Sweep(c.limits, t, now), gone);
  }

  lemma FewerKeys(t: Table, s: Table, gone: Key)
    requires Wf(t) && Wf(s) && Shrunk(t, s) && gone in t.buckets && gone !in s.buckets
    ensures |s.order| < |t.order|
  {
    TableSize(t);
    TableSize(s);
    assert s.buckets.Keys <= t.buckets.Keys - {gone};
    SubsetSize(s.buckets.Keys, t.buckets.Keys - {gone});
  }

  /** Sorted once the last entry, the touched key, is dated no earlier than everything else. */
  ghost predicate SortedButLast(t: Table, clock: real)
    requires Wf(t)
  {
    && t.order != [] && NotAfter(t, clock)
    && (forall i, j :: 0 <= i < j < |t.order| - 1 ==>
          t.buckets[t.order[i]].lastRefill <= t.buckets[t.order[j]].lastRefill)
  }

  lemma MoveToEndKeepsOrder(t: Table, clock: real, key: Key)
    requires Wf(t) && SortedByRefill(t) && NotAfter(t, clock) && key in t.buckets
    ensures var r := t.(order := MoveToEnd(t.order, key));
            Wf(r) && SortedButLast(r, clock) && r.order[|r.order| - 1] == key && |r.order| == |t.order|
  {
    MoveToEndKeepsWf(t, key);
    var s := MoveToEnd(t.order, key);
    hide MoveToEnd, Wf;
    forall i, j | 0 <= i < j < |s| - 1
      ensures t.buckets[s[i]].lastRefill <= t.buckets[s[j]].lastRefill
    {
      MoveToEndAt(t, key, i, j);
    }
    MoveToEndAt(t, key, 0, 0);
  }

  lemma MoveToEndAt(t: Table, key: Key, i: nat, j: nat)
    requires Wf(t) && key in t.buckets
    ensures var s := MoveToEnd(t.order, key);
            && |s| == |t.order| > 0 && s[|s| - 1] == key
            && (i < j < |s| - 1 ==> exists i', j' :: 0 <= i' < j' < |s| && s[i] == t.order[i'] && s[j] == t.order[j'])
  {
    var at, s := IndexOf(t.order, key), MoveToEnd(t.order, key);
    if i < j < |s| - 1 {
      var i', j' := if i < at then i else i + 1, if j < at then j else j + 1;
      assert s[i] == t.order[i'] && s[j] == t.order[j'];
    }
  }

  lemma AppendKeepsOrder(t: Table, clock: real, key: Key, b: Bucket)
    requires Wf(t) && SortedByRefill(t) && NotAfter(t, clock) && key !in t.buckets && b.lastRefill == clock
    ensures var r := t.(order := t.order + [key], buckets := t.buckets[key := b]);
            Wf(r) && SortedButLast(r, clock)
  {
    var r := t.(order := t.order + [key], buckets := t.buckets[key := b]);
    assert forall k :: k in r.order <==> k in t.order || k == key;
    forall i, j | 0 <= i < j < |r.order| - 1
      ensures r.buckets[r.order[i]].lastRefill <= r.buckets[r.order[j]].lastRefill
    {
      assert r.order[i] == t.order[i] && r.order[j] == t.order[j];
    }
  }

  lemma EvictKeepsOrder(l: Limits, t: Table, now: real)
    requires l.Valid() && Wf(t) && SortedByRefill(t)
    ensures SortedByRefill(Evict(l, t, now))
  {
    hide SortedByRefill, Wf;
    if |t.order| >= l.maxKeys {
      SweepRemovesExactlyIdle(l, t, now);
      PopDownKeepsSorted(l.maxKeys - 1, Sweep(l, t, now));
    }
  }

  lemma TouchKeepsOrder(c: Config, t: Table, clock: real, key: Key, now: real)
    requires c.limits.Valid() && TableInv(c, t, clock) && clock <= now
    ensures var r := Touch(c.policy, c.limits, t, key, now);
            && SortedButLast(r, now) && r.order[|r.order| - 1] == key
            && |r.order| <= c.limits.maxKeys
  {
    if key in t.buckets {
      MoveToEndKeepsOrder(t, now, key);
      hide MoveToEnd, SortedButLast, SortedByRefill, Wf;
    } else {
      EvictShrinks(c.limits, t, now);
      EvictKeepsOrder(c.limits, t, now);
      AppendKeepsOrder(Evict(c.limits, t, now), now, key, FullBucket(c.policy, now));
      hide Evict, SortedButLast, SortedByRefill, Wf;
    }
  }

  lemma PutLastIsSorted(t: Table, key: Key, b: Bucket)
    requires Wf(t) && SortedButLast(t, b.lastRefill) && t.order[|t.order| - 1] == key
    ensures key in t.buckets && SortedByRefill(Put(t, key, b))
  {
    var r := Put(t, key, b);
    forall i, j | 0 <= i < j < |t.order|
      ensures r.buckets[r.order[i]].lastRefill <= r.buckets[r.order[j]].lastRefill
    {
      assert t.order[i] in t.buckets && t.order[i] != key;
      assert j < |t.order| - 1 ==> t.order[j] != key;
    }
  }

  lemma CheckKeepsOrder(c: Config, t: Table, clock: real, key: Key, now: real)
    requires c.limits.Valid() && TableInv(c, t, clock) && clock <= now
    ensures var r := RateLimiter.Check(c.policy, c.limits, t, key, now).0;
            && SortedByRefill(r) && |r.order| <= c.limits.maxKeys
            && (now - Touch(c.policy, c.limits, t, key, now).lastSweep >= c.limits.sweepInterval ==>
                  forall k :: k in r.buckets ==> !Idle(c.limits, r.buckets[k], now))
  {
    TouchKeepsOrder(c, t, clock, key, now);
    var t1 := Touch(c.policy, c.limits, t, key, now);
    var one := MemTake(c.policy, Some(t1.buckets[key]), now);
    assert one.0.lastRefill == now;
    hide Touch, Wf, SortedButLast, SortedByRefill, MemTake, Idle;
    PutLastIsSorted(t1, key, one.0);
    SweepRemovesExactlyIdle(c.limits, Put(t1, key, one.0), now);
  }

  lemma OthersStayInRange(c: Config, t: Table, r: Table, clock: real, key: Key, now: real)
    requires TokensInRange(c.policy, t) && NotAfter(t, clock) && clock <= now && OthersShrunk(t, r, key)
    requires key in r.buckets && r.buckets[key].lastRefill == now
    requires c.policy.perMinute >= 0 ==> 0.0 <= r.buckets[key].tokens <= c.policy.Capacity()
    ensures TokensInRange(c.policy, r) && NotAfter(r, now)
  {
  }

  lemma CheckKeepsInv(c: Config, t: Table, clock: real, key: Key, now: real)
    requires c.limits.Valid() && TableInv(c, t, clock) && clock <= now
    ensures TableInv(c, RateLimiter.Check(c.policy, c.limits, t, key, now).0, now)
  {
    CheckKeepsOrder(c, t, clock, key, now);
    if c.policy.perMinute >= 0 { TakeStaysInRange(c.policy, Lookup(t.buckets, key), now); }
    assert MemTake(c.policy, Lookup(t.buckets, key), now).0.lastRefill == now;
    hide RateLimiter.Check, Wf, SortedByRefill, Idle, MemTake, TokensInRange, NotAfter;
    CheckServesItsBucket(c.policy, c.limits, t, key, now);
    OthersStayInRange(c, t, RateLimiter.Check(c.policy, c.limits, t, key, now).0, clock, key, now);
  }

  lemma {:induction false} RunKeepsInv(c: Config, t: Table, clock: real, evs: seq<Event>)
    requires c.limits.Valid() && TableInv(c, t, clock) && Ordered(evs, clock)
    ensures TableInv(c, Run(c, t, evs).0, EndClock(evs, clock))
    decreases |evs|
  {
    if evs != [] {
      StepKeepsInv(c, t, clock, evs[0]);
      hide Step, TableInv;
      RunKeepsInv(c, Step(c, t, evs[0]).0, Later(evs[0], clock), evs[1..]);
    }
  }

  function EndClock(evs: seq<Event>, clock: real): real
    decreases |evs|
  {
    if evs == [] then clock else EndClock(evs[1..], Later(evs[0], clock))
  }

  // ---------------------------------------------------------------- counting

  function Tally(e: Event, o: Outcome, k: Key): nat { if e.Check? && e.key == k && o.Admitted() then 1 else 0 }

  /** Admissions of one key in a run. */
  function AdmittedFor(evs: seq<Event>, outs: seq<Outcome>, k: Key): nat
    requires |evs| == |outs|
  {
    if evs == [] then 0 else Tally(evs[0], outs[0], k) + AdmittedFor(evs[1..], outs[1..], k)
  }

  /** Every event at the end of a run counts once, and exactly when it is an admitted check of the key. */
  lemma {:induction false} AdmittedForConcat(evs: seq<Event>, outs: seq<Outcome>, e: Event, o: Outcome, k: Key)
    requires |evs| == |outs|
    ensures AdmittedFor(evs + [e], outs + [o], k)
         == AdmittedFor(evs, outs, k) + (if e.Check? && e.key == k && o.Admitted() then 1 else 0)
    decreases |evs|
  {
    if evs == [] {
      assert evs + [e] == [e] && outs + [o] == [o] && [e][1..] == [] && [o][1..] == [];
    } else {
      AdmittedForConcat(evs[1..], outs[1..], e, o, k);
      assert (evs + [e])[1..] == evs[1..] + [e] && (outs + [o])[1..] == outs[1..] + [o];
    }
  }

  lemma RunCons(c: Config, t: Table, evs: seq<Event>, k: Key)
    requires Wf(t) && c.limits.Valid() && evs != []
    ensures var s := Step(c, t, evs[0]);
            AdmittedFor(evs, Run(c, t, evs).1, k)
            == Tally(evs[0], s.1, k) + AdmittedFor(evs[1..], Run(c, s.0, evs[1..]).1, k)
  {
    var s := Step(c, t, evs[0]);
    assert Run(c, t, evs).1[1..] == Run(c, s.0, evs[1..]).1;
    hide Step;
  }

  lemma IdealRunCons(p: Policy, m: Ideal, evs: seq<Event>, k: Key)
    requires evs != []
    ensures var s := IdealStep(p, m, evs[0]);
            AdmittedFor(evs, IdealRun(p, m, evs).1, k)
            == Tally(evs[0], s.1, k) + AdmittedFor(evs[1..], IdealRun(p, s.0, evs[1..]).1, k)
  {
    var s := IdealStep(p, m, evs[0]);
    assert IdealRun(p, m, evs).1[1..] == IdealRun(p, s.0, evs[1..]).1;
    hide IdealStep;
  }

  // ---------------------------------------------------------------- removal only admits more

  /** `lead` is how many more calls of `k` the table has admitted than the ideal limiter. */
  ghost predicate Ahead(p: Policy, t: Table, m: Ideal, k: Key, lead: int) {
    && lead >= 0
    && (k in m ==> m[k].tokens <= p.Capacity())
    && (k in t.buckets ==>
          && k in m && t.buckets[k].lastRefill == m[k].lastRefill
          && m[k].tokens <= t.buckets[k].tokens + lead as real)
  }

  lemma AheadTake(p: Policy, real': Option<Bucket>, ideal: Option<Bucket>, lead: int, now: real)
    requires lead >= 0
    requires ideal.Some? ==> ideal.value.tokens <= p.Capacity()
    requires real'.Some? ==>
               && ideal.Some? && real'.value.lastRefill == ideal.value.lastRefill
               && ideal.value.tokens <= real'.value.tokens + lead as real
    ensures var r, i := MemTake(p, real', now), MemTake(p, ideal, now);
            var next := lead + Lead(r.1.allowed, i.1.allowed);
            && next >= 0 && i.0.tokens <= r.0.tokens + next as real
            && i.0.tokens <= p.Capacity() && r.0.lastRefill == i.0.lastRefill == now
  {
    EarnedSplit(p, 0.0, 0.0);
    hide Earned;
  }

  lemma AheadStep(c: Config, t: Table, m: Ideal, k: Key, lead: int, e: Event)
    requires c.limits.Valid() && Wf(t) && Ahead(c.policy, t, m, k, lead)
    ensures var s, i := Step(c, t, e), IdealStep(c.policy, m, e);
            Ahead(c.policy, s.0, i.0, k, lead + Tally(e, s.1, k) - Tally(e, i.1, k))
  {
    match e {
      case Check(key, at) =>
        CheckServesItsBucket(c.policy, c.limits, t, key, at);
        if key == k { AheadTake(c.policy, Lookup(t.buckets, k), Lookup(m, k), lead, at); }
        hide RateLimiter.Check, MemTake, Wf, OnlyIdleDropped;
      case Refund(_) =>
    }
  }

  lemma {:induction false} AheadRun(c: Config, t: Table, m: Ideal, k: Key, lead: int, evs: seq<Event>)
    requires c.limits.Valid() && Wf(t) && Ahead(c.policy, t, m, k, lead)
    ensures AdmittedFor(evs, IdealRun(c.policy, m, evs).1, k) <= AdmittedFor(evs, Run(c, t, evs).1, k) + lead
    decreases |evs|
  {
    if evs != [] {
      var s, i := Step(c, t, evs[0]), IdealStep(c.policy, m, evs[0]);
      AheadStep(c, t, m, k, lead, evs[0]);
      RunCons(c, t, evs, k);
      IdealRunCons(c.policy, m, evs, k);
      hide Step, IdealStep, Ahead, Wf;
      AheadRun(c, s.0, i.0, k, lead + Tally(evs[0], s.1, k) - Tally(evs[0], i.1, k), evs[1..]);
    }
  }

  /** Sweeping and forced eviction can only admit more than the ideal limiter: for every key, every sequence of events
      (so every prefix), every policy and any clock. */
  lemma RemovalOnlyAdmitsMore(c: Config, start: real, k: Key, evs: seq<Event>)
    requires c.limits.Valid()
    ensures AdmittedFor(evs, IdealRun(c.policy, map[], evs).1, k) <= AdmittedFor(evs, Run(c, Empty(start), evs).1, k)
  {
    AheadRun(c, Empty(start), map[], k, 0, evs);
  }

  // ---------------------------------------------------------------- how much one key can be admitted

  function RefundsFor(evs: seq<Event>, k: Key): nat {
    if evs == [] then 0 else (if evs[0] == Refund(k) then 1 else 0) + RefundsFor(evs[1..], k)
  }

  /** How often the key's bucket is swept or evicted in a run. */
  function RemovalsOf(c: Config, t: Table, evs: seq<Event>, k: Key): nat
    requires Wf(t) && c.limits.Valid()
    decreases |evs|
  {
    if evs == [] then 0
    else
      var s := Step(c, t, evs[0]);
      (if k in t.buckets && k !in s.0.buckets then 1 else 0) + RemovalsOf(c, s.0, evs[1..], k)
  }

  lemma AvailableLater(p: Policy, b: Option<Bucket>, clock: real, now: real)
    requires p.perMinute >= 0 && clock <= now
    ensures Available(p, b, now) <= Available(p, b, clock) + Earned(p, now - clock)
  {
    EarnedNonneg(p, now - clock);
    if b.Some? {
      EarnedSplit(p, clock - b.value.lastRefill, now - clock);
      assert clock - b.value.lastRefill + (now - clock) == now - b.value.lastRefill;
    }
    hide Earned;
  }

  lemma AvailableAfterTake(p: Policy, b: Option<Bucket>, now: real)
    ensures var r := MemTake(p, b, now);
            Available(p, Some(r.0), now) == Available(p, b, now) - (if r.1.allowed then 1.0 else 0.0)
  {
    EarnedSplit(p, 0.0, 0.0);
    hide Earned;
  }

  lemma AvailableAfterRefund(p: Policy, b: Bucket, clock: real)
    ensures Available(p, Some(GiveBackTo(p, b)), clock) <= Available(p, Some(b), clock) + 1.0
  {
    hide Earned;
  }

  lemma AvailableNonneg(p: Policy, b: Option<Bucket>, clock: real)
    requires p.perMinute >= 0
    requires b.Some? ==> 0.0 <= b.value.tokens && b.value.lastRefill <= clock
    ensures Available(p, b, clock) >= 0.0
  {
    if b.Some? { EarnedNonneg(p, clock - b.value.lastRefill); }
    hide Earned;
  }

  /** What one step may add to a key's admissions: earned tokens, its refund, a fresh bucket after a removal. */
  function StepCredit(c: Config, t: Table, clock: real, k: Key, e: Event): real
    requires Wf(t) && c.limits.Valid()
  {
    Earned(c.policy, Later(e, clock) - clock)
    + (if e == Refund(k) then 1.0 else 0.0)
    + (if k in t.buckets && k !in Step(c, t, e).0.buckets then c.policy.Capacity() else 0.0)
  }

  lemma BudgetCheck(c: Config, t: Table, clock: real, k: Key, key: Key, at: real)
    requires c.limits.Valid() && TableInv(c, t, clock) && c.policy.perMinute >= 0 && clock <= at
    ensures var s := Step(c, t, Check(key, at)); var p := c.policy;
            Tally(Check(key, at), s.1, k) as real + Available(p, Lookup(s.0.buckets, k), at)
            <= Available(p, Lookup(t.buckets, k), clock) + StepCredit(c, t, clock, k, Check(key, at))
  {
    hide Wf, Earned, RateLimiter.Check, MemTake, OnlyIdleDropped, Refill, SortedByRefill;
    var p, b := c.policy, Lookup(t.buckets, k);
    AvailableNonneg(p, b, clock);
    EarnedNonneg(p, at - clock);
    AvailableLater(p, b, clock, at);
    CheckServesItsBucket(p, c.limits, t, key, at);
    if key == k {
      AvailableAfterTake(p, b, at);
    }
  }

  lemma BudgetRefund(c: Config, t: Table, clock: real, k: Key, key: Key)
    requires c.limits.Valid() && Wf(t)
    ensures var s := Step(c, t, Refund(key)); var p := c.policy;
            Available(p, Lookup(s.0.buckets, k), clock)
            <= Available(p, Lookup(t.buckets, k), clock) + StepCredit(c, t, clock, k, Refund(key))
  {
    if key == k && k in t.buckets { AvailableAfterRefund(c.policy, t.buckets[k], clock); }
    EarnedSplit(c.policy, 0.0, 0.0);
    assert Later(Refund(key), clock) - clock == 0.0;
    hide Wf, Earned, Available;
  }

  lemma StepKeepsInv(c: Config, t: Table, clock: real, e: Event)
    requires c.limits.Valid() && TableInv(c, t, clock) && clock <= Later(e, clock)
    ensures TableInv(c, Step(c, t, e).0, Later(e, clock))
  {
    match e {
      case Check(k, at) => CheckKeepsInv(c, t, clock, k, at);
      case Refund(k) => assert TableInv(c, Step(c, t, e).0, clock);
    }
  }

  lemma {:induction false} EndClockLater(evs: seq<Event>, clock: real)
    requires Ordered(evs, clock)
    ensures clock <= EndClock(evs, clock)
    decreases |evs|
  {
    if evs != [] { EndClockLater(evs[1..], Later(evs[0], clock)); }
  }

  function TimesCapacity(p: Policy, n: nat): real { n as real * p.Capacity() }

  lemma TimesCapacityNext(p: Policy, n: nat)
    ensures TimesCapacity(p, n + 1) == TimesCapacity(p, n) + p.Capacity()
  {
  }

  function RunCredit(c: Config, t: Table, clock: real, k: Key, evs: seq<Event>): real
    requires Wf(t) && c.limits.Valid()
    decreases |evs|
  {
    if evs == [] then 0.0
    else StepCredit(c, t, clock, k, evs[0]) + RunCredit(c, Step(c, t, evs[0]).0, Later(evs[0], clock), k, evs[1..])
  }

  lemma {:induction false} AdmissionBudget(c: Config, t: Table, clock: real, k: Key, evs: seq<Event>)
    requires c.limits.Valid() && TableInv(c, t, clock) && c.policy.perMinute >= 0 && Ordered(evs, clock)
    ensures AdmittedFor(evs, Run(c, t, evs).1, k) as real
            <= Available(c.policy, Lookup(t.buckets, k), clock) + RunCredit(c, t, clock, k, evs)
    decreases |evs|
  {
    if evs == [] {
      AvailableNonneg(c.policy, Lookup(t.buckets, k), clock);
    } else {
      StepKeepsInv(c, t, clock, evs[0]);
      match evs[0] {
        case Check(key, at) => BudgetCheck(c, t, clock, k, key, at);
        case Refund(key) => BudgetRefund(c, t, clock, k, key);
      }
      RunCons(c, t, evs, k);
      hide Step, TableInv, Wf, Available, StepCredit, Lookup;
      AdmissionBudget(c, Step(c, t, evs[0]).0, Later(evs[0], clock), k, evs[1..]);
    }
  }

  /** One step of each of the four sums over a run. */
  lemma CreditCons(c: Config, t: Table, clock: real, k: Key, evs: seq<Event>)
    requires c.limits.Valid() && Wf(t) && evs != []
    ensures var s, later := Step(c, t, evs[0]).0, Later(evs[0], clock);
            && RunCredit(c, t, clock, k, evs)
               == StepCredit(c, t, clock, k, evs[0]) + RunCredit(c, s, later, k, evs[1..])
            && EndClock(evs, clock) == EndClock(evs[1..], later)
            && RefundsFor(evs, k) == RefundsFor(evs[1..], k) + (if evs[0] == Refund(k) then 1 else 0)
            && RemovalsOf(c, t, evs, k)
               == RemovalsOf(c, s, evs[1..], k) + (if k in t.buckets && k !in s.buckets then 1 else 0)
  {
    hide Step, Wf, StepCredit;
  }

  lemma StepCreditIs(c: Config, t: Table, clock: real, k: Key, e: Event, end: real, removals: nat)
    requires c.limits.Valid() && Wf(t)
    ensures var removed := if k in t.buckets && k !in Step(c, t, e).0.buckets then 1 else 0;
            StepCredit(c, t, clock, k, e) + Earned(c.policy, end - Later(e, clock)) + TimesCapacity(c.policy, removals)
            == Earned(c.policy, end - clock) + (if e == Refund(k) then 1.0 else 0.0)
               + TimesCapacity(c.policy, removals + removed)
  {
    var later := Later(e, clock);
    EarnedSplit(c.policy, later - clock, end - later);
    assert (later - clock) + (end - later) == end - clock;
    TimesCapacityNext(c.policy, removals);
    hide Step, Wf, Earned, TimesCapacity, Later;
  }

  lemma CreditNil(c: Config, t: Table, clock: real, k: Key)
    requires c.limits.Valid() && Wf(t)
    ensures RunCredit(c, t, clock, k, []) == 0.0 == Earned(c.policy, EndClock([], clock) - clock)
    ensures RefundsFor([], k) == 0 && TimesCapacity(c.policy, RemovalsOf(c, t, [], k)) == 0.0
  {
    EarnedSplit(c.policy, 0.0, 0.0);
  }

  lemma {:induction false} RunCreditTotal(c: Config, t: Table, clock: real, k: Key, evs: seq<Event>)
    requires c.limits.Valid() && Wf(t)
    ensures RunCredit(c, t, clock, k, evs)
         == Earned(c.policy, EndClock(evs, clock) - clock) + RefundsFor(evs, k) as real
            + TimesCapacity(c.policy, RemovalsOf(c, t, evs, k))
    decreases |evs|
  {
    hide *;
    if evs == [] {
      CreditNil(c, t, clock, k);
    } else {
      var s, later := Step(c, t, evs[0]).0, Later(evs[0], clock);
      CreditCons(c, t, clock, k, evs);
      StepCreditIs(c, t, clock, k, evs[0], EndClock(evs, clock), RemovalsOf(c, s, evs[1..], k));
      RunCreditTotal(c, s, later, k, evs[1..]);
    }
  }

  /** Tokens a stretch of time can add; a negative rate adds none. */
  function Credit(p: Policy, elapsed: real): real { if p.perMinute >= 0 then Earned(p, elapsed) else 0.0 }

  /** Over any time-ordered stretch of a run, one key is admitted at most capacity times one more than the number of
      times its bucket is removed, plus the tokens earned over the stretch, plus its refunds. */
  lemma AdmissionBound(c: Config, t: Table, clock: real, k: Key, evs: seq<Event>)
    requires c.limits.Valid() && TableInv(c, t, clock) && Ordered(evs, clock)
    ensures AdmittedFor(evs, Run(c, t, evs).1, k) as real
            <= TimesCapacity(c.policy, 1 + RemovalsOf(c, t, evs, k))
               + Credit(c.policy, EndClock(evs, clock) - clock) + RefundsFor(evs, k) as real
  {
    hide TimesCapacity, Earned, Available, TableInv, Run, AdmittedFor, RunCredit, Wf;
    TableInvIsWf(c, t, clock);
    TimesCapacityNext(c.policy, RemovalsOf(c, t, evs, k));
    if c.policy.perMinute >= 0 {
      AdmissionBudget(c, t, clock, k, evs);
      RunCreditTotal(c, t, clock, k, evs);
      AvailableAtMostCapacity(c.policy, Lookup(t.buckets, k), clock);
    } else {
      NonPositiveRateRun(c, t, evs);
      NoneAdmitted(evs, k);
      TimesCapacityNonneg(c.policy, 1 + RemovalsOf(c, t, evs, k));
    }
  }

  lemma AvailableAtMostCapacity(p: Policy, b: Option<Bucket>, clock: real)
    ensures Available(p, b, clock) <= p.Capacity()
  {
    hide Earned;
  }

  lemma TimesCapacityNonneg(p: Policy, n: nat)
    ensures TimesCapacity(p, n) >= 0.0
  {
    assert p.Capacity() >= 0.0;
  }

  lemma {:induction false} NoneAdmitted(evs: seq<Event>, k: Key)
    ensures |DenyAll(evs)| == |evs| && AdmittedFor(evs, DenyAll(evs), k) == 0
  {
    if evs != [] {
      NoneAdmitted(evs[1..], k);
      assert DenyAll(evs)[1..] == DenyAll(evs[1..]);
    }
  }

  // ---------------------------------------------------------------- when exactly the sweep is invisible

  /** What every limiter answers when the rate is not positive. */
  function DenyAll(evs: seq<Event>): seq<Outcome> {
    if evs == [] then []
    else [if evs[0].Check? then Checked(Verdict(false, 3600.0)) else Refunded] + DenyAll(evs[1..])
  }

  lemma NonPositiveTake(p: Policy, b: Option<Bucket>, now: real)
    requires p.perMinute <= 0
    ensures MemTake(p, b, now).1 == Verdict(false, DENY_ALL_RETRY_AFTER)
  {
    hide Earned;
  }

  lemma {:induction false} NonPositiveRateRun(c: Config, t: Table, evs: seq<Event>)
    requires c.limits.Valid() && Wf(t) && c.policy.perMinute <= 0
    ensures Run(c, t, evs).1 == DenyAll(evs)
    decreases |evs|
  {
    hide MemTake, Wf, RateLimiter.Check;
    if evs != [] {
      if evs[0].Check? {
        CheckServesItsBucket(c.policy, c.limits, t, evs[0].key, evs[0].at);
        NonPositiveTake(c.policy, Lookup(t.buckets, evs[0].key), evs[0].at);
      }
      NonPositiveRateRun(c, Step(c, t, evs[0]).0, evs[1..]);
    }
  }

  lemma {:induction false} NonPositiveRateIdeal(p: Policy, m: Ideal, evs: seq<Event>)
    requires p.perMinute <= 0
    ensures IdealRun(p, m, evs).1 == DenyAll(evs)
    decreases |evs|
  {
    hide MemTake;
    if evs != [] {
      if evs[0].Check? { NonPositiveTake(p, Lookup(m, evs[0].key), evs[0].at); }
      NonPositiveRateIdeal(p, IdealStep(p, m, evs[0]).0, evs[1..]);
    }
  }

  function Repeat(e: Event, n: nat): seq<Event> { if n == 0 then [] else [e] + Repeat(e, n - 1) }

  ghost predicate AllAdmitted(outs: seq<Outcome>) { forall i :: 0 <= i < |outs| ==> outs[i].Admitted() }

  lemma {:induction false} RunConcat(c: Config, t: Table, a: seq<Event>, b: seq<Event>)
    requires c.limits.Valid() && Wf(t)
    ensures var r := Run(c, t, a);
            Run(c, t, a + b) == (Run(c, r.0, b).0, r.1 + Run(c, r.0, b).1)
    decreases |a|
  {
    hide Step, Wf;
    if a == [] {
      assert a + b == b;
      assert [] + Run(c, t, b).1 == Run(c, t, b).1;
    } else {
      assert (a + b)[1..] == a[1..] + b;
      var s := Step(c, t, a[0]);
      RunConcat(c, s.0, a[1..], b);
      var r := Run(c, s.0, a[1..]);
      assert [s.1] + (r.1 + Run(c, r.0, b).1) == ([s.1] + r.1) + Run(c, r.0, b).1;
    }
  }

  lemma {:induction false} IdealRunConcat(p: Policy, m: Ideal, a: seq<Event>, b: seq<Event>)
    ensures var r := IdealRun(p, m, a);
            IdealRun(p, m, a + b) == (IdealRun(p, r.0, b).0, r.1 + IdealRun(p, r.0, b).1)
    decreases |a|
  {
    hide IdealStep;
    if a == [] {
      assert a + b == b;
      assert [] + IdealRun(p, m, b).1 == IdealRun(p, m, b).1;
    } else {
      assert (a + b)[1..] == a[1..] + b;
      var s := IdealStep(p, m, a[0]);
      IdealRunConcat(p, s.0, a[1..], b);
      var r := IdealRun(p, s.0, a[1..]);
      assert [s.1] + (r.1 + IdealRun(p, r.0, b).1) == ([s.1] + r.1) + IdealRun(p, r.0, b).1;
    }
  }

  /** No sweep that would move the sweep clock is due at `now`. */
  ghost predicate Quiet(c: Config, t: Table, now: real) {
    now - t.lastSweep < c.limits.sweepInterval || now == t.lastSweep
  }

  lemma {:induction false} SweepStampsNow(l: Limits, t: Table, now: real)
    requires Wf(t)
    ensures Sweep(l, t, now).lastSweep == now
    decreases |t.order|
  {
    if t.order != [] && Idle(l, t.buckets[t.order[0]], now) { SweepStampsNow(l, PopFirst(t), now); }
  }

  lemma TouchKeepsSweepClock(c: Config, t: Table, k: Key, now: real)
    requires c.limits.Valid() && Wf(t) && (k in t.buckets || |t.order| < c.limits.maxKeys)
    ensures Touch(c.policy, c.limits, t, k, now).lastSweep == t.lastSweep
  {
  }

  lemma QuietCheckKeepsSweepClock(c: Config, t: Table, k: Key, now: real)
    requires c.limits.Valid() && Wf(t) && (k in t.buckets || |t.order| < c.limits.maxKeys) && Quiet(c, t, now)
    ensures RateLimiter.Check(c.policy, c.limits, t, k, now).0.lastSweep == t.lastSweep
  {
    hide MemTake, Wf, Touch, Sweep;
    TouchKeepsSweepClock(c, t, k, now);
    var t1 := Touch(c.policy, c.limits, t, k, now);
    SweepStampsNow(c.limits, Put(t1, k, MemTake(c.policy, Some(t1.buckets[k]), now).0), now);
  }

  lemma TakeOneOf(p: Policy, b: Option<Bucket>, now: real)
    requires Available(p, b, now) >= 1.0
    ensures MemTake(p, b, now) == (Bucket(Available(p, b, now) - 1.0, now), Verdict(true, 0.0))
  {
    EarnedSplit(p, 0.0, 0.0);
    hide Earned;
  }

  /** A burst of `n` checks at one instant on a bucket that holds `n` tokens is admitted in full. */
  lemma {:induction false} BurstOnTable(c: Config, t: Table, clock: real, k: Key, now: real, n: nat)
    requires c.limits.Valid() && TableInv(c, t, clock) && clock <= now
    requires Available(c.policy, Lookup(t.buckets, k), now) >= n as real
    ensures var r := Run(c, t, Repeat(Check(k, now), n));
            && AllAdmitted(r.1)
            && (n > 0 && Quiet(c, t, now) && (k in t.buckets || |t.order| < c.limits.maxKeys) ==>
                  && TableInv(c, r.0, now) && r.0.lastSweep == t.lastSweep
                  && r.0.buckets.Keys <= t.buckets.Keys + {k} && k in r.0.buckets
                  && r.0.buckets[k] == Bucket(Available(c.policy, Lookup(t.buckets, k), now) - n as real, now))
    decreases n
  {
    hide MemTake, Wf, RateLimiter.Check, TableInv, Available, OnlyIdleDropped;
    if n > 0 {
      var b := Lookup(t.buckets, k);
      TakeOneOf(c.policy, b, now);
      AvailableAfterTake(c.policy, b, now);
      TableInvIsWf(c, t, clock);
      CheckServesItsBucket(c.policy, c.limits, t, k, now);
      CheckKeepsInv(c, t, clock, k, now);
      if Quiet(c, t, now) && (k in t.buckets || |t.order| < c.limits.maxKeys) { QuietCheckKeepsSweepClock(c, t, k, now); }
      assert Repeat(Check(k, now), n)[1..] == Repeat(Check(k, now), n - 1);
      var s := Step(c, t, Check(k, now));
      BurstOnTable(c, s.0, now, k, now, n - 1);
      AllAdmittedCons(s.1, Run(c, s.0, Repeat(Check(k, now), n - 1)).1);
    }
  }

  lemma TableInvIsWf(c: Config, t: Table, clock: real)
    requires TableInv(c, t, clock)
    ensures Wf(t)
  {
  }

  lemma {:induction false} BurstOnIdeal(p: Policy, m: Ideal, k: Key, now: real, n: nat)
    ensures var r := IdealRun(p, m, Repeat(Check(k, now), n));
            && (AllAdmitted(r.1) ==> n == 0 || Available(p, Lookup(m, k), now) >= n as real)
            && (AllAdmitted(r.1) && n > 0 ==>
                  r.0 == m[k := Bucket(Available(p, Lookup(m, k), now) - n as real, now)])
            && (Available(p, Lookup(m, k), now) >= n as real ==> AllAdmitted(r.1))
    decreases n
  {
    hide MemTake, Available;
    if n > 0 {
      var b, one := Lookup(m, k), MemTake(p, Lookup(m, k), now);
      if Available(p, b, now) >= 1.0 { TakeOneOf(p, b, now); }
      AvailableAfterTake(p, b, now);
      NotAllowedIffShort(p, b, now);
      var evs := Repeat(Check(k, now), n);
      assert evs[1..] == Repeat(Check(k, now), n - 1);
      var s := IdealStep(p, m, evs[0]);
      var rest := IdealRun(p, s.0, evs[1..]);
      BurstOnIdeal(p, s.0, k, now, n - 1);
      AllAdmittedCons(s.1, rest.1);
    }
  }

  lemma AllAdmittedCons(o: Outcome, rest: seq<Outcome>)
    ensures AllAdmitted([o] + rest) <==> o.Admitted() && AllAdmitted(rest)
  {
    var all := [o] + rest;
    assert all[0] == o && forall i :: 0 <= i < |rest| ==> all[i + 1] == rest[i];
  }

  lemma NotAllowedIffShort(p: Policy, b: Option<Bucket>, now: real)
    ensures MemTake(p, b, now).1.allowed <==> Available(p, b, now) >= 1.0
  {
    EarnedSplit(p, 0.0, 0.0);
    hide Earned;
  }

  /** The run that tells the two limiters apart when the TTL is too short: drain `a`, let `b` trigger the sweep once
      `a` has been idle for the TTL, then burst on `a` again. */
  function DrainTime(c: Config, start: real): real {
    if c.limits.sweepInterval > c.limits.idleTtl then start + c.limits.sweepInterval - c.limits.idleTtl else start
  }

  function TellTale(c: Config, start: real, a: Key, b: Key): seq<Event> {
    var d, n := DrainTime(c, start), c.policy.CapacityInt();
    Repeat(Check(a, d), n) + ([Check(b, d + c.limits.idleTtl)] + Repeat(Check(a, d + c.limits.idleTtl), n))
  }

  ghost predicate LastBurstAdmitted(n: nat, outs: seq<Outcome>)
    requires n <= |outs|
  {
    AllAdmitted(outs[|outs| - n..])
  }

  lemma {:induction false} RepeatLength(e: Event, n: nat)
    ensures |Repeat(e, n)| == n && forall i :: 0 <= i < n ==> Repeat(e, n)[i] == e
  {
    if n > 0 { RepeatLength(e, n - 1); }
  }

  lemma SweptBucketIsGone(c: Config, t: Table, d: real, a: Key, b: Key)
    requires c.limits.Valid() && c.limits.maxKeys >= 2 && TableInv(c, t, d) && a != b
    requires t.buckets.Keys == {a} && t.buckets[a].lastRefill == d
    requires d + c.limits.idleTtl - t.lastSweep >= c.limits.sweepInterval
    ensures var r := RateLimiter.Check(c.policy, c.limits, t, b, d + c.limits.idleTtl).0;
            a !in r.buckets && TableInv(c, r, d + c.limits.idleTtl)
  {
    hide MemTake, Wf, Touch, Sweep, SortedByRefill, TokensInRange;
    var now := d + c.limits.idleTtl;
    TableSize(t);
    assert |t.buckets.Keys| == 1;
    TouchKeepsSweepClock(c, t, b, now);
    CheckKeepsOrder(c, t, d, b, now);
    CheckServesItsBucket(c.policy, c.limits, t, b, now);
    CheckKeepsInv(c, t, d, b, now);
  }

  lemma TellTaleOnTable(c: Config, start: real, a: Key, b: Key)
    requires c.limits.Valid() && c.limits.maxKeys >= 2 && a != b && c.policy.perMinute > 0
    ensures |TellTale(c, start, a, b)| >= c.policy.CapacityInt()
    ensures LastBurstAdmitted(c.policy.CapacityInt(), Run(c, Empty(start), TellTale(c, start, a, b)).1)
  {
    hide MemTake, Wf, RateLimiter.Check, TableInv, RateLimiter.Refund, Repeat;
    var d, n, ttl := DrainTime(c, start), c.policy.CapacityInt(), c.limits.idleTtl;
    var drain, again := Repeat(Check(a, d), n), Repeat(Check(a, d + ttl), n);
    RepeatLength(Check(a, d), n);
    RepeatLength(Check(a, d + ttl), n);
    EmptyInv(c, start);
    BurstOnTable(c, Empty(start), start, a, d, n);
    var r1 := Run(c, Empty(start), drain);
    assert r1.0.buckets.Keys == {a};
    SweptBucketIsGone(c, r1.0, d, a, b);
    var r2 := Run(c, r1.0, [Check(b, d + ttl)]);
    RunOne(c, r1.0, Check(b, d + ttl));
    BurstOnTable(c, r2.0, d + ttl, a, d + ttl, n);
    RunConcat(c, Empty(start), drain, [Check(b, d + ttl)] + again);
    RunConcat(c, r1.0, [Check(b, d + ttl)], again);
    var outs := Run(c, Empty(start), TellTale(c, start, a, b)).1;
    assert outs[|outs| - n..] == Run(c, r2.0, again).1;
  }

  lemma EmptyInv(c: Config, start: real)
    ensures TableInv(c, Empty(start), start) && Wf(Empty(start))
  {
  }

  lemma RunOne(c: Config, t: Table, e: Event)
    requires c.limits.Valid() && Wf(t)
    ensures Run(c, t, [e]) == (Step(c, t, e).0, [Step(c, t, e).1])
  {
    hide Step, Wf;
    assert [e][1..] == [];
    assert Run(c, Step(c, t, e).0, []) == (Step(c, t, e).0, []);
    assert [Step(c, t, e).1] + [] == [Step(c, t, e).1];
  }

  lemma TellTaleOnIdeal(c: Config, start: real, a: Key, b: Key)
    requires a != b && c.policy.perMinute > 0 && !TtlRefillsAll(c)
    ensures |TellTale(c, start, a, b)| >= c.policy.CapacityInt()
    ensures !LastBurstAdmitted(c.policy.CapacityInt(), IdealRun(c.policy, map[], TellTale(c, start, a, b)).1)
  {
    hide MemTake, Repeat, Earned;
    var p, d, n, ttl := c.policy, DrainTime(c, start), c.policy.CapacityInt(), c.limits.idleTtl;
    var drain, again := Repeat(Check(a, d), n), Repeat(Check(a, d + ttl), n);
    RepeatLength(Check(a, d), n);
    RepeatLength(Check(a, d + ttl), n);
    BurstOnIdeal(p, map[], a, d, n);
    var r1 := IdealRun(p, map[], drain);
    assert r1.0[a] == Bucket(0.0, d);
    var m2 := IdealStep(p, r1.0, Check(b, d + ttl)).0;
    assert [Check(b, d + ttl)][1..] == [];
    assert IdealRun(p, r1.0, [Check(b, d + ttl)]).0 == m2;
    assert d + ttl - d == ttl;
    assert Available(p, Lookup(m2, a), d + ttl) < n as real;
    BurstOnIdeal(p, m2, a, d + ttl, n);
    IdealRunConcat(p, map[], drain, [Check(b, d + ttl)] + again);
    IdealRunConcat(p, r1.0, [Check(b, d + ttl)], again);
    var outs := IdealRun(p, map[], TellTale(c, start, a, b)).1;
    assert outs[|outs| - n..] == IdealRun(p, m2, again).1;
  }

  ghost predicate FewKeys(c: Config, evs: seq<Event>) {
    exists keys: set<Key> :: |keys| <= c.limits.maxKeys && KeysWithin(evs, keys)
  }

  ghost predicate SameAnswers(c: Config, start: real, evs: seq<Event>)
    requires c.limits.Valid()
  {
    Run(c, Empty(start), evs).1 == IdealRun(c.policy, map[], evs).1
  }

  lemma {:induction false} OrderedConcat(a: seq<Event>, b: seq<Event>, clock: real)
    requires Ordered(a, clock) && Ordered(b, EndClock(a, clock))
    ensures Ordered(a + b, clock)
    decreases |a|
  {
    if a == [] {
      assert a + b == b;
    } else {
      assert (a + b)[1..] == a[1..] + b;
      OrderedConcat(a[1..], b, Later(a[0], clock));
    }
  }

  lemma {:induction false} RepeatOrdered(k: Key, at: real, n: nat, clock: real)
    requires clock <= at
    ensures Ordered(Repeat(Check(k, at), n), clock) && EndClock(Repeat(Check(k, at), n), clock) <= at
    decreases n
  {
    if n > 0 {
      assert Repeat(Check(k, at), n)[1..] == Repeat(Check(k, at), n - 1);
      RepeatOrdered(k, at, n - 1, at);
    }
  }

  lemma TellTaleIsLegal(c: Config, start: real, a: Key, b: Key)
    requires c.limits.Valid() && c.limits.maxKeys >= 2
    ensures Ordered(TellTale(c, start, a, b), start) && FewKeys(c, TellTale(c, start, a, b))
  {
    hide Repeat;
    var d, n, ttl := DrainTime(c, start), c.policy.CapacityInt(), c.limits.idleTtl;
    var drain, again := Repeat(Check(a, d), n), Repeat(Check(a, d + ttl), n);
    RepeatLength(Check(a, d), n);
    RepeatLength(Check(a, d + ttl), n);
    RepeatOrdered(a, d, n, start);
    RepeatOrdered(a, d + ttl, n, d + ttl);
    assert ([Check(b, d + ttl)] + again)[1..] == again;
    OrderedConcat(drain, [Check(b, d + ttl)] + again, start);
    TwoKeys(a, b);
    assert KeysWithin(TellTale(c, start, a, b), {a, b});
  }

  lemma TwoKeys(a: Key, b: Key)
    ensures |{a, b}| <= 2
  {
    assert {a, b} == {a} + {b};
  }

  /** With as many keys as the table can hold, the swept limiter gives exactly the ideal limiter's answers on every
      time-ordered run if and only if the rate is not positive or one idle TTL refills a whole bucket. */
  lemma SweepIsInvisibleIff(c: Config, start: real, a: Key, b: Key)
    requires c.limits.Valid() && c.limits.maxKeys >= 2 && a != b
    ensures (forall evs :: Ordered(evs, start) && FewKeys(c, evs) ==> SameAnswers(c, start, evs))
            == (c.policy.perMinute <= 0 || TtlRefillsAll(c))
  {
    hide MemTake, Wf, RateLimiter.Check, Run, IdealRun, TtlRefillsAll;
    if c.policy.perMinute <= 0 {
      forall evs | Ordered(evs, start) && FewKeys(c, evs) ensures SameAnswers(c, start, evs) {
        EmptyInv(c, start);
        NonPositiveRateRun(c, Empty(start), evs);
        NonPositiveRateIdeal(c.policy, map[], evs);
      }
    } else if TtlRefillsAll(c) {
      forall evs | Ordered(evs, start) && FewKeys(c, evs) ensures SameAnswers(c, start, evs) {
        SweepIsInvisible(c, start, evs);
      }
    } else {
      TellTaleIsLegal(c, start, a, b);
      TellTaleOnTable(c, start, a, b);
      TellTaleOnIdeal(c, start, a, b);
      assert !SameAnswers(c, start, TellTale(c, start, a, b));
    }
  }

  /** With the shipped limits the condition is that the burst is at most an hour's worth of the configured rate. */
  lemma ShippedLimitsCondition(p: Policy)
    requires p.perMinute > 0
    ensures TtlRefillsAll(Config(p, DEFAULT_LIMITS)) <==> p.burst <= 60 * p.perMinute
  {
    assert Earned(p, 3600.0) == 60.0 * p.perMinute as real;
  }

  /** The swept limiter answers exactly as the ideal one, refunds included. */
  lemma SweepIsInvisible(c: Config, start: real, evs: seq<Event>)
    requires c.limits.Valid() && c.policy.perMinute > 0 && TtlRefillsAll(c)
    requires Ordered(evs, start) && FewKeys(c, evs)
    ensures SameAnswers(c, start, evs)
  {
    hide Run, IdealRun, Wf;
    EmptyInv(c, start);
    var keys: set<Key> :| |keys| <= c.limits.maxKeys && KeysWithin(evs, keys);
    SweepIsInvisibleFrom(c, Empty(start), map[], start, keys, evs);
  }
}
