/** The in-memory `RateLimiter` of hub/abuse.py: an access-ordered table of buckets with lazy refill, an idle sweep
    that stops at the first fresh bucket, and forced eviction at the cap. */
module RateLimiter {
  import opened Common
  import opened TokenBucket

  /** A limiter key (an organisation, an address): any type whose values can be compared. */
  type Key(==, !new)

  /** The three class constants, which an instance may override. */
  datatype Limits = Limits(idleTtl: real, sweepInterval: real, maxKeys: nat) {
    predicate Valid() { idleTtl > 0.0 && maxKeys >= 1 }
  }

  const DEFAULT_LIMITS := Limits(3600.0, 300.0, 100000)

  /** An OrderedDict (oldest access first) and the time of the last sweep. */
  datatype Table = Table(order: seq<Key>, buckets: map<Key, Bucket>, lastSweep: real)

  ghost predicate Wf(t: Table) {
    && (forall i, j :: 0 <= i < j < |t.order| ==> t.order[i] != t.order[j])
    && (forall k :: k in t.order <==> k in t.buckets)
  }

  predicate Idle(l: Limits, b: Bucket, now: real) { now - b.lastRefill >= l.idleTtl }

  function PopFirst(t: Table): (r: Table)
    requires Wf(t) && t.order != []
    ensures Wf(r)
  {
    var r := Table(t.order[1..], t.buckets - {t.order[0]}, t.lastSweep);
    assert forall k :: k in t.order <==> k == t.order[0] || k in r.order;
    r
  }

  function Sweep(l: Limits, t: Table, now: real): (r: Table)
    requires Wf(t)
    ensures Wf(r)
    decreases |t.order|
  {
    if t.order == [] || !Idle(l, t.buckets[t.order[0]], now) then t.(lastSweep := now)
    else Sweep(l, PopFirst(t), now)
  }

  function PopDownTo(n: nat, t: Table): (r: Table)
    requires Wf(t)
    ensures Wf(r)
    decreases |t.order|
  {
    if |t.order| <= n then t else PopDownTo(n, PopFirst(t))
  }

  /** `_evict_if_over_capacity`. */
  function Evict(l: Limits, t: Table, now: real): (r: Table)
    requires Wf(t) && l.Valid()
    ensures Wf(r)
  {
    if |t.order| < l.maxKeys then t else PopDownTo(l.maxKeys - 1, Sweep(l, t, now))
  }

  function IndexOf(s: seq<Key>, k: Key): (i: nat)
    requires k in s
    ensures i < |s| && s[i] == k
  {
    if s[0] == k then 0 else 1 + IndexOf(s[1..], k)
  }

  function MoveToEnd(s: seq<Key>, k: Key): seq<Key>
    requires k in s
  {
    var i := IndexOf(s, k);
    s[..i] + s[i + 1..] + [k]
  }

  lemma MoveToEndKeepsWf(t: Table, k: Key)
    requires Wf(t) && k in t.buckets
    ensures Wf(t.(order := MoveToEnd(t.order, k)))
  {
    var i, s := IndexOf(t.order, k), MoveToEnd(t.order, k);
    assert forall j :: 0 <= j < i ==> s[j] == t.order[j];
    assert forall j :: i <= j < |s| - 1 ==> s[j] == t.order[j + 1];
    forall x ensures x in t.order <==> x in s {
      if x in t.order {
        var j := IndexOf(t.order, x);
        assert j < i ==> s[j] == x;
        assert j > i ==> s[j - 1] == x;
      }
    }
  }

  /** The key's bucket at the end of the order, created full when it is missing. */
  function Touch(p: Policy, l: Limits, t: Table, key: Key, now: real): (r: Table)
    requires Wf(t) && l.Valid()
    ensures Wf(r) && key in r.buckets
  {
    if key in t.buckets then
      MoveToEndKeepsWf(t, key);
      t.(order := MoveToEnd(t.order, key))
    else
      EvictShrinks(l, t, now);
      var e := Evict(l, t, now);
      var r := e.(order := e.order + [key], buckets := e.buckets[key := FullBucket(p, now)]);
      assert forall k :: k in r.order <==> k in e.order || k == key;
      r
  }

  function Put(t: Table, key: Key, b: Bucket): (r: Table)
    requires Wf(t) && key in t.buckets
    ensures Wf(r)
  {
    t.(buckets := t.buckets[key := b])
  }

  function SweepIfDue(l: Limits, t: Table, now: real): (r: Table)
    requires Wf(t)
    ensures Wf(r)
  {
    if now - t.lastSweep >= l.sweepInterval then Sweep(l, t, now) else t
  }

  /** `check`, as a function of the table. */
  function Check(p: Policy, l: Limits, t: Table, key: Key, now: real): (r: (Table, Verdict))
    requires Wf(t) && l.Valid()
    ensures Wf(r.0)
  {
    var t1 := Touch(p, l, t, key, now);
    var one := MemTake(p, Some(t1.buckets[key]), now);
    (SweepIfDue(l, Put(t1, key, one.0), now), one.1)
  }

  function Refund(p: Policy, t: Table, key: Key): Table {
    if key in t.buckets then t.(buckets := t.buckets[key := GiveBackTo(p, t.buckets[key])]) else t
  }

  // ---------------------------------------------------------------- what one call does

  ghost predicate Shrunk(t: Table, r: Table) {
    forall k :: k in r.buckets ==> k in t.buckets && r.buckets[k] == t.buckets[k]
  }

  lemma {:induction false} SweepShrinks(l: Limits, t: Table, now: real)
    requires Wf(t)
    ensures Shrunk(t, Sweep(l, t, now))
    ensures forall k :: k in t.buckets && k !in Sweep(l, t, now).buckets ==> Idle(l, t.buckets[k], now)
    ensures |Sweep(l, t, now).order| <= |t.order|
    decreases |t.order|
  {
    if !(t.order == [] || !Idle(l, t.buckets[t.order[0]], now)) { SweepShrinks(l, PopFirst(t), now); }
  }

  lemma {:induction false} PopDownShrinks(n: nat, t: Table)
    requires Wf(t)
    ensures Shrunk(t, PopDownTo(n, t)) && |PopDownTo(n, t).order| <= n
    decreases |t.order|
  {
    if |t.order| > n { PopDownShrinks(n, PopFirst(t)); }
  }

  lemma EvictShrinks(l: Limits, t: Table, now: real)
    requires Wf(t) && l.Valid()
    ensures Shrunk(t, Evict(l, t, now)) && |Evict(l, t, now).order| < l.maxKeys
  {
    hide Wf, Sweep, PopDownTo;
    if |t.order| >= l.maxKeys {
      SweepShrinks(l, t, now);
      PopDownShrinks(l.maxKeys - 1, Sweep(l, t, now));
    }
  }

  function Lookup(m: map<Key, Bucket>, k: Key): Option<Bucket> { if k in m then Some(m[k]) else None }

  /** `r` keeps no bucket but `key`'s and unchanged ones of `t`. */
  ghost predicate OthersShrunk(t: Table, r: Table, key: Key) {
    forall k :: k != key && k in r.buckets ==> k in t.buckets && r.buckets[k] == t.buckets[k]
  }

  ghost predicate OnlyIdleDropped(l: Limits, t: Table, r: Table, key: Key, now: real) {
    forall k :: k != key && k in t.buckets && k !in r.buckets ==> Idle(l, t.buckets[k], now)
  }

  lemma TouchFacts(p: Policy, l: Limits, t: Table, key: Key, now: real)
    requires Wf(t) && l.Valid()
    ensures var r := Touch(p, l, t, key, now);
            && r.buckets[key] == (if key in t.buckets then t.buckets[key] else FullBucket(p, now))
            && OthersShrunk(t, r, key)
            && (key in t.buckets || |t.order| < l.maxKeys ==> OnlyIdleDropped(l, t, r, key, now))
  {
    hide Wf, MoveToEnd, Idle;
    if key !in t.buckets { EvictShrinks(l, t, now); }
  }

  lemma SweepIfDueFacts(l: Limits, t: Table, key: Key, now: real)
    requires Wf(t) && l.Valid() && key in t.buckets && t.buckets[key].lastRefill == now
    ensures var r := SweepIfDue(l, t, now);
            key in r.buckets && Shrunk(t, r) && OnlyIdleDropped(l, t, r, key, now)
  {
    hide Wf, Sweep;
    SweepShrinks(l, t, now);
  }

  /** The take on the touched bucket is the take on the bucket of the table, if it has one. */
  lemma TakeFromFull(p: Policy, now: real)
    ensures MemTake(p, Some(FullBucket(p, now)), now) == MemTake(p, None, now)
  {
  }

  lemma TakeStampsNow(p: Policy, b: Option<Bucket>, now: real)
    ensures MemTake(p, b, now).0.lastRefill == now
  {
  }

  lemma ShrinkCompose(l: Limits, t: Table, t1: Table, t2: Table, r: Table, key: Key, now: real)
    requires OthersShrunk(t, t1, key) && Shrunk(t2, r) && OnlyIdleDropped(l, t2, r, key, now)
    requires key in t1.buckets && key in r.buckets && key in t2.buckets && t2.buckets == t1.buckets[key := t2.buckets[key]]
    ensures OthersShrunk(t, r, key) && r.buckets[key] == t2.buckets[key]
    ensures OnlyIdleDropped(l, t, t1, key, now) ==> OnlyIdleDropped(l, t, r, key, now)
  {
  }

  /** Whatever the clock says, a check serves its own key as one bucket take, keeps that key, and otherwise only drops
      buckets: idle ones, or, when a new key arrives at a full table, evicted ones. */
  lemma CheckServesItsBucket(p: Policy, l: Limits, t: Table, key: Key, now: real)
    requires Wf(t) && l.Valid()
    ensures var r := Check(p, l, t, key, now);
            var one := MemTake(p, Lookup(t.buckets, key), now);
            && r.1 == one.1
            && key in r.0.buckets && r.0.buckets[key] == one.0
            && OthersShrunk(t, r.0, key)
            && (key in t.buckets || |t.order| < l.maxKeys ==> OnlyIdleDropped(l, t, r.0, key, now))
  {
    hide Wf, Touch, MemTake, Idle, SweepIfDue, OthersShrunk, OnlyIdleDropped, Shrunk;
    TouchFacts(p, l, t, key, now);
    var t1 := Touch(p, l, t, key, now);
    var one := MemTake(p, Some(t1.buckets[key]), now);
    TakeFromFull(p, now);
    TakeStampsNow(p, Some(t1.buckets[key]), now);
    var t2 := Put(t1, key, one.0);
    SweepIfDueFacts(l, t2, key, now);
    ShrinkCompose(l, t, t1, t2, SweepIfDue(l, t2, now), key, now);
  }
}
