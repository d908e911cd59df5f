/** One token bucket, in the two forms hub/abuse.py gives it: the `_Bucket` record that
    `RateLimiter.check` refills and decrements in memory, and the row that the
    single-statement upsert of `PostgresRateLimiter` rewrites. Times and tokens are exact reals. */
module TokenBucket {
  import opened Common

  function Min(a: real, b: real): real { if a <= b then a else b }

  /** What both constructors derive from `per_minute` and `burst`. */
  datatype Policy = Policy(perMinute: int, burst: int) {
    function Rate(): real { perMinute as real / 60.0 }

    function CapacityInt(): nat {
      if perMinute <= 0 then 0 else if burst >= 1 then burst else 1
    }

    function Capacity(): real { CapacityInt() as real }
  }

  const DENY_ALL_RETRY_AFTER := 3600.0

  datatype Bucket = Bucket(tokens: real, lastRefill: real)

  datatype Verdict = Verdict(allowed: bool, retryAfter: real)

  /** What a caller sees: a verdict for a check, nothing for a refund. */
  datatype Outcome = Checked(verdict: Verdict) | Refunded {
    predicate Admitted() { Checked? && verdict.allowed }
    predicate Denied() { Checked? && !verdict.allowed }
  }

  datatype Op = Take(at: real) | GiveBack

  function RetryAfter(p: Policy, tokens: real): real {
    if p.Rate() <= 0.0 then DENY_ALL_RETRY_AFTER else (1.0 - tokens) / p.Rate()
  }

  /** Tokens earned over `elapsed` seconds. */
  function Earned(p: Policy, elapsed: real): real { elapsed * p.Rate() }

  function Refill(p: Policy, tokens: real, elapsed: real): real {
    Min(p.Capacity(), tokens + Earned(p, elapsed))
  }

  // ---------------------------------------------------------------- in memory

  function FullBucket(p: Policy, now: real): Bucket { Bucket(p.Capacity(), now) }

  /** The bucket part of `check`: create when missing, refill, then take a whole token if there is one. */
  function MemTake(p: Policy, b: Option<Bucket>, now: real): (Bucket, Verdict) {
    var start := if b.Some? then b.value else FullBucket(p, now);
    var t := Refill(p, start.tokens, now - start.lastRefill);
    if t >= 1.0 then (Bucket(t - 1.0, now), Verdict(true, 0.0))
    else (Bucket(t, now), Verdict(false, RetryAfter(p, t)))
  }

  function GiveBackTo(p: Policy, b: Bucket): Bucket {
    b.(tokens := Min(p.Capacity(), b.tokens + 1.0))
  }

  // ---------------------------------------------------------------- in Postgres

  const MICROSECOND := 0.000001

  /** The upsert: `last_refill` is pushed one microsecond ahead exactly when the call is denied, and the
      RETURNING clause reads the decision back as `last_refill = now()`. */
  function PgTake(p: Policy, row: Option<Bucket>, now: real): (Bucket, Verdict) {
    var written :=
      if row.None? then
        Bucket(if p.Capacity() >= 1.0 then p.Capacity() - 1.0 else p.Capacity(),
               if p.Capacity() >= 1.0 then now else now + MICROSECOND)
      else
        var t := Refill(p, row.value.tokens, now - row.value.lastRefill);
        Bucket(if t >= 1.0 then t - 1.0 else t, if t >= 1.0 then now else now + MICROSECOND);
    (written,
     if written.lastRefill == now then Verdict(true, 0.0)
     else Verdict(false, RetryAfter(p, written.tokens)))
  }

  // ---------------------------------------------------------------- runs on one key

  datatype Backend = Memory | Postgres

  function TakeOn(w: Backend, p: Policy, b: Option<Bucket>, now: real): (Bucket, Verdict) {
    match w
    case Memory => MemTake(p, b, now)
    case Postgres => PgTake(p, b, now)
  }

  function BucketStep(w: Backend, p: Policy, b: Option<Bucket>, op: Op): (Option<Bucket>, Outcome) {
    match op
    case Take(now) => var r := TakeOn(w, p, b, now); (Some(r.0), Checked(r.1))
    case GiveBack => (if b.Some? then Some(GiveBackTo(p, b.value)) else None, Refunded)
  }

  /** The bucket and the outcomes after serving `ops` in order. */
  function Serve(w: Backend, p: Policy, b: Option<Bucket>, ops: seq<Op>): (r: (Option<Bucket>, seq<Outcome>))
    ensures |r.1| == |ops|
    decreases |ops|
  {
    if ops == [] then (b, [])
    else
      var s := BucketStep(w, p, b, ops[0]);
      var rest := Serve(w, p, s.0, ops[1..]);
      (rest.0, [s.1] + rest.1)
  }

  /** Clock readings never run backwards and start no earlier than `clock`. */
  ghost predicate TimeOrdered(ops: seq<Op>, clock: real)
    decreases ops
  {
    ops == [] ||
    match ops[0]
    case Take(at) => clock <= at && TimeOrdered(ops[1..], at)
    case GiveBack => TimeOrdered(ops[1..], clock)
  }

  function Admissions(outs: seq<Outcome>): nat {
    if outs == [] then 0
    else (if outs[0].Admitted() then 1 else 0) + Admissions(outs[1..])
  }

  // ---------------------------------------------------------------- bounds

  lemma EarnedSplit(p: Policy, a: real, b: real)
    ensures Earned(p, a + b) == Earned(p, a) + Earned(p, b)
  {
  }

  lemma EarnedNonneg(p: Policy, a: real)
    requires a >= 0.0 && p.perMinute >= 0
    ensures Earned(p, a) >= 0.0
  {
  }

  /** The encoding of the decision in `last_refill` is exact. */
  lemma PgDecisionIsTheRefill(p: Policy, row: Option<Bucket>, now: real)
    ensures var t := if row.Some? then Refill(p, row.value.tokens, now - row.value.lastRefill) else p.Capacity();
            var r := PgTake(p, row, now);
            && (r.1.allowed <==> t >= 1.0)
            && r.0.tokens == (if r.1.allowed then t - 1.0 else t)
  {
  }

  /** With a non-positive rate both back ends deny every call, with the fixed hint. */
  lemma {:induction false} NonPositiveRateDeniesAll(w: Backend, p: Policy, b: Option<Bucket>, ops: seq<Op>)
    requires p.perMinute <= 0
    ensures forall i :: 0 <= i < |ops| && ops[i].Take? ==>
              Serve(w, p, b, ops).1[i] == Checked(Verdict(false, 3600.0))
    decreases |ops|
  {
    if ops != [] {
      NonPositiveRateDeniesAll(w, p, BucketStep(w, p, b, ops[0]).0, ops[1..]);
    }
  }

  // ---------------------------------------------------------------- SQL against memory

  /** The coupling of the two back ends on one key. `lead` is how many more calls memory has admitted. */
  ghost predicate Coupled(p: Policy, mem: Option<Bucket>, pg: Option<Bucket>, lead: int) {
    && lead >= 0
    && (mem.None? <==> pg.None?)
    && (mem.Some? ==>
          && mem.value.lastRefill <= pg.value.lastRefill
          && pg.value.tokens <= mem.value.tokens + lead as real
                                + Earned(p, pg.value.lastRefill - mem.value.lastRefill))
  }

  function Lead(mem: bool, pg: bool): int {
    (if mem then 1 else 0) - (if pg then 1 else 0)
  }

  lemma CoupledTake(p: Policy, mem: Option<Bucket>, pg: Option<Bucket>, lead: int, now: real)
    requires Coupled(p, mem, pg, lead) && p.perMinute > 0
    ensures var m := MemTake(p, mem, now); var q := PgTake(p, pg, now);
            Coupled(p, Some(m.0), Some(q.0), lead + Lead(m.1.allowed, q.1.allowed))
  {
    if mem.Some? {
      var a, b := mem.value.lastRefill, pg.value.lastRefill;
      EarnedSplit(p, now - b, b - a);
      assert (now - b) + (b - a) == now - a;
    }
    EarnedSplit(p, 0.0, 0.0);
    EarnedNonneg(p, MICROSECOND);
    assert now - now == 0.0 && now + MICROSECOND - now == MICROSECOND;
    hide Earned;
  }

  lemma CoupledGiveBack(p: Policy, mem: Bucket, pg: Bucket, lead: int)
    requires Coupled(p, Some(mem), Some(pg), lead) && p.perMinute > 0
    ensures Coupled(p, Some(GiveBackTo(p, mem)), Some(GiveBackTo(p, pg)), lead)
  {
    EarnedNonneg(p, pg.lastRefill - mem.lastRefill);
    hide Earned;
  }

  lemma {:induction false} CoupledRun(p: Policy, mem: Option<Bucket>, pg: Option<Bucket>, lead: int, ops: seq<Op>)
    requires p.perMinute > 0 && Coupled(p, mem, pg, lead)
    ensures Admissions(Serve(Postgres, p, pg, ops).1) <= Admissions(Serve(Memory, p, mem, ops).1) + lead
    decreases |ops|
  {
    if ops != [] {
      var m, q := BucketStep(Memory, p, mem, ops[0]), BucketStep(Postgres, p, pg, ops[0]);
      match ops[0] {
        case Take(now) => CoupledTake(p, mem, pg, lead, now);
        case GiveBack => if mem.Some? { CoupledGiveBack(p, mem.value, pg.value, lead); }
      }
      CoupledRun(p, m.0, q.0, lead + Lead(m.1.Admitted(), q.1.Admitted()), ops[1..]);
    }
  }

  lemma {:induction false} NoAdmissions(outs: seq<Outcome>)
    requires forall i :: 0 <= i < |outs| ==> !outs[i].Admitted()
    ensures Admissions(outs) == 0
  {
    if outs != [] { NoAdmissions(outs[1..]); }
  }

  /** For one key, any policy and any sequence of checks and refunds, the Postgres limiter never admits more
      than the in-memory one. Every prefix of a run is such a sequence. */
  lemma PostgresNeverAdmitsMore(p: Policy, ops: seq<Op>)
    ensures Admissions(Serve(Postgres, p, None, ops).1) <= Admissions(Serve(Memory, p, None, ops).1)
  {
    if p.perMinute > 0 {
      CoupledRun(p, None, None, 0, ops);
    } else {
      NonPositiveRateDeniesAll(Postgres, p, None, ops);
      RefundsAreNotVerdicts(Postgres, p, None, ops);
      NoAdmissions(Serve(Postgres, p, None, ops).1);
    }
  }

  lemma {:induction false} RefundsAreNotVerdicts(w: Backend, p: Policy, b: Option<Bucket>, ops: seq<Op>)
    ensures forall i :: 0 <= i < |ops| ==> (Serve(w, p, b, ops).1[i].Checked? <==> ops[i].Take?)
    decreases |ops|
  {
    if ops != [] { RefundsAreNotVerdicts(w, p, BucketStep(w, p, b, ops[0]).0, ops[1..]); }
  }

  /** One token a second, capacity one. */
  const UNIT := Policy(60, 1)

  lemma UnitTake(b: Bucket, now: real)
    ensures var t := Min(1.0, b.tokens + (now - b.lastRefill));
            && TakeOn(Memory, UNIT, Some(b), now).0 == Bucket(if t >= 1.0 then t - 1.0 else t, now)
            && (TakeOn(Memory, UNIT, Some(b), now).1.allowed <==> t >= 1.0)
            && TakeOn(Postgres, UNIT, Some(b), now).0
               == (if t >= 1.0 then Bucket(t - 1.0, now) else Bucket(t, now + MICROSECOND))
            && (TakeOn(Postgres, UNIT, Some(b), now).1.allowed <==> t >= 1.0)
  {
    assert UNIT.Rate() == 1.0 && UNIT.Capacity() == 1.0;
    assert Earned(UNIT, now - b.lastRefill) == now - b.lastRefill;
  }

  lemma UnitFirst(w: Backend, now: real)
    ensures TakeOn(w, UNIT, None, now) == (Bucket(0.0, now), Verdict(true, 0.0))
  {
    assert UNIT.Rate() == 1.0 && UNIT.Capacity() == 1.0;
    assert Earned(UNIT, 0.0) == 0.0;
  }

  /** The two back ends can disagree call by call, in both directions. */
  lemma DecisionsDifferPointwise()
    ensures var ops := [Take(0.0), Take(0.5), Take(1.0), Take(1.1)];
            var m, q := Serve(Memory, UNIT, None, ops).1, Serve(Postgres, UNIT, None, ops).1;
            m[2].Admitted() && q[2].Denied() && m[3].Denied() && q[3].Admitted()
  {
    UnitFirst(Memory, 0.0); UnitFirst(Postgres, 0.0);
    UnitTake(Bucket(0.0, 0.0), 0.5);
    UnitTake(Bucket(0.5, 0.5), 1.0);
    UnitTake(Bucket(0.5, 0.500001), 1.0);
    UnitTake(Bucket(0.0, 1.0), 1.1);
    UnitTake(Bucket(0.999999, 1.000001), 1.1);
    ServeFour(Memory, UNIT, None, Take(0.0), Take(0.5), Take(1.0), Take(1.1));
    ServeFour(Postgres, UNIT, None, Take(0.0), Take(0.5), Take(1.0), Take(1.1));
    hide TakeOn, Serve;
  }

  lemma ServeCons(w: Backend, p: Policy, b: Option<Bucket>, op: Op, rest: seq<Op>)
    ensures var s := BucketStep(w, p, b, op);
            var r := Serve(w, p, s.0, rest);
            Serve(w, p, b, [op] + rest) == (r.0, [s.1] + r.1)
  {
    assert ([op] + rest)[1..] == rest;
  }

  lemma ServeFour(w: Backend, p: Policy, b: Option<Bucket>, o0: Op, o1: Op, o2: Op, o3: Op)
    ensures var s0 := BucketStep(w, p, b, o0);
            var s1 := BucketStep(w, p, s0.0, o1);
            var s2 := BucketStep(w, p, s1.0, o2);
            var s3 := BucketStep(w, p, s2.0, o3);
            Serve(w, p, b, [o0, o1, o2, o3]) == (s3.0, [s0.1, s1.1, s2.1, s3.1])
  {
    var s0 := BucketStep(w, p, b, o0);
    var s1 := BucketStep(w, p, s0.0, o1);
    var s2 := BucketStep(w, p, s1.0, o2);
    ServeCons(w, p, s2.0, o3, []);
    assert [o3] + [] == [o3];
    ServeCons(w, p, s1.0, o2, [o3]);
    assert [o2] + [o3] == [o2, o3];
    ServeCons(w, p, s0.0, o1, [o2, o3]);
    assert [o1] + [o2, o3] == [o1, o2, o3];
    ServeCons(w, p, b, o0, [o1, o2, o3]);
    assert [o0] + [o1, o2, o3] == [o0, o1, o2, o3];
    var s3 := BucketStep(w, p, s2.0, o3);
    assert [s0.1] + ([s1.1] + ([s2.1] + ([s3.1] + []))) == [s0.1, s1.1, s2.1, s3.1];
  }

  // ---------------------------------------------------------------- the retry hint

  /** The instant from which a bucket holds a whole token. */
  function DueAt(p: Policy, b: Bucket): real
    requires p.perMinute > 0
  {
    b.lastRefill + (1.0 - b.tokens) / p.Rate()
  }

  lemma WholeTokenIffDue(p: Policy, b: Bucket, t: real)
    requires p.perMinute > 0
    ensures Refill(p, b.tokens, t - b.lastRefill) >= 1.0 <==> t >= DueAt(p, b)
  {
    var r, e := p.Rate(), t - b.lastRefill;
    WholeTokenArithmetic(b.tokens, e, r);
    assert t >= DueAt(p, b) <==> e >= (1.0 - b.tokens) / r;
    assert b.tokens + Earned(p, e) >= 1.0 <==> e >= (1.0 - b.tokens) / r;
    assert p.Capacity() >= 1.0;
    hide Earned, DueAt;
  }

  lemma WholeTokenArithmetic(x: real, e: real, r: real)
    requires r > 0.0
    ensures x + e * r >= 1.0 <==> e >= (1.0 - x) / r
  {
    var d := (1.0 - x) / r;
    assert d * r == 1.0 - x;
    assert (e - d) * r == e * r - d * r;
    assert e >= d ==> (e - d) * r >= 0.0;
    assert e < d ==> (e - d) * r < 0.0;
  }

  /** What `n` denials add to the due time. */
  function Penalty(w: Backend, n: nat): real { if w.Memory? then 0.0 else n as real * 0.000001 }

  lemma PenaltyNext(w: Backend, n: nat)
    ensures Penalty(w, n + 1) == Penalty(w, n) + Penalty(w, 1)
  {
  }

  predicate AllowedAt(w: Backend, p: Policy, b: Option<Bucket>, now: real) { TakeOn(w, p, b, now).1.allowed }

  function HintAt(w: Backend, p: Policy, b: Option<Bucket>, now: real): real { TakeOn(w, p, b, now).1.retryAfter }

  function After(w: Backend, p: Policy, b: Option<Bucket>, now: real): Bucket { TakeOn(w, p, b, now).0 }

  /** The bucket after checks at the instants `ts`, served in that order. */
  function AfterAll(w: Backend, p: Policy, b: Bucket, ts: seq<real>): Bucket
    decreases |ts|
  {
    if ts == [] then b else AfterAll(w, p, After(w, p, Some(b), ts[0]), ts[1..])
  }

  ghost predicate AllDenied(w: Backend, p: Policy, b: Bucket, ts: seq<real>)
    decreases |ts|
  {
    ts == [] || (!AllowedAt(w, p, Some(b), ts[0]) && AllDenied(w, p, After(w, p, Some(b), ts[0]), ts[1..]))
  }

  /** A denial moves the due time by exactly the back end's penalty: the refill telescopes. */
  lemma DenialKeepsDueTime(w: Backend, p: Policy, b: Bucket, now: real)
    requires p.perMinute > 0 && !AllowedAt(w, p, Some(b), now)
    ensures DueAt(p, After(w, p, Some(b), now)) == DueAt(p, b) + Penalty(w, 1)
  {
    var r := p.Rate();
    var t := b.tokens + Earned(p, now - b.lastRefill);
    assert (1.0 - t) / r == (1.0 - b.tokens) / r - (now - b.lastRefill) by {
      assert 1.0 - t == (1.0 - b.tokens) - (now - b.lastRefill) * r;
      DivSub(1.0 - b.tokens, now - b.lastRefill, r);
    }
    var after := After(w, p, Some(b), now);
    assert after.tokens == t && after.lastRefill == now + Penalty(w, 1) by { hide Earned; }
  }

  lemma DivSub(a: real, d: real, r: real)
    requires r > 0.0
    ensures (a - d * r) / r == a / r - d
  {
    assert (a / r - d) * r == a / r * r - d * r == a - d * r;
  }

  lemma {:induction false} DenialsTelescope(w: Backend, p: Policy, b: Bucket, ts: seq<real>)
    requires p.perMinute > 0 && AllDenied(w, p, b, ts)
    ensures DueAt(p, AfterAll(w, p, b, ts)) == DueAt(p, b) + Penalty(w, |ts|)
    decreases |ts|
  {
    if ts != [] {
      PenaltyNext(w, |ts| - 1);
      DenialKeepsDueTime(w, p, b, ts[0]);
      hide AllowedAt, After, DueAt, Penalty;
      DenialsTelescope(w, p, After(w, p, Some(b), ts[0]), ts[1..]);
    }
  }

  lemma AllowedIffDue(w: Backend, p: Policy, b: Bucket, t: real)
    requires p.perMinute > 0
    ensures AllowedAt(w, p, Some(b), t) <==> t >= DueAt(p, b)
  {
    WholeTokenIffDue(p, b, t);
  }

  lemma HintIsDueTime(w: Backend, p: Policy, b: Option<Bucket>, now: real)
    requires p.perMinute > 0 && !AllowedAt(w, p, b, now)
    ensures DueAt(p, After(w, p, b, now)) == now + HintAt(w, p, b, now) + Penalty(w, 1)
  {
  }

  /** After a denial at `now` that returned `r`, and any further denied checks, a check at `t` is admitted exactly
      when `t >= now + r` in memory; in Postgres every denial so far, the first included, costs one microsecond more. */
  lemma RetryAfterIsExact(w: Backend, p: Policy, b: Option<Bucket>, now: real, ts: seq<real>, t: real)
    requires p.perMinute > 0 && !AllowedAt(w, p, b, now)
    requires AllDenied(w, p, After(w, p, b, now), ts)
    ensures AllowedAt(w, p, Some(AfterAll(w, p, After(w, p, b, now), ts)), t)
         == (t >= now + HintAt(w, p, b, now) + Penalty(w, |ts| + 1))
  {
    PenaltyNext(w, |ts|);
    HintIsDueTime(w, p, b, now);
    DenialsTelescope(w, p, After(w, p, b, now), ts);
    hide AllowedAt, After, DueAt, Penalty, HintAt;
    AllowedIffDue(w, p, AfterAll(w, p, After(w, p, b, now), ts), t);
  }

  /** In memory every check before the due time is denied, however the checks are spaced. */
  lemma {:induction false} EarlyChecksAreDenied(p: Policy, b: Bucket, ts: seq<real>)
    requires p.perMinute > 0 && forall i :: 0 <= i < |ts| ==> ts[i] < DueAt(p, b)
    ensures AllDenied(Memory, p, b, ts)
    decreases |ts|
  {
    if ts != [] {
      AllowedIffDue(Memory, p, b, ts[0]);
      DenialKeepsDueTime(Memory, p, b, ts[0]);
      EarlyChecksAreDenied(p, After(Memory, p, Some(b), ts[0]), ts[1..]);
    }
  }

  /** A Postgres client that waits exactly the returned delay is denied again. */
  lemma PostgresHintIsShort(p: Policy, b: Option<Bucket>, now: real)
    requires p.perMinute > 0 && !AllowedAt(Postgres, p, b, now)
    ensures !AllowedAt(Postgres, p, Some(After(Postgres, p, b, now)), now + HintAt(Postgres, p, b, now))
  {
    HintIsDueTime(Postgres, p, b, now);
    AllowedIffDue(Postgres, p, After(Postgres, p, b, now), now + HintAt(Postgres, p, b, now));
  }

  // ---------------------------------------------------------------- ranges

  ghost predicate InRange(p: Policy, b: Option<Bucket>) {
    b.Some? ==> 0.0 <= b.value.tokens <= p.Capacity()
  }

  lemma {:induction false} MemStaysInRange(p: Policy, b: Option<Bucket>, ops: seq<Op>, clock: real)
    requires p.perMinute >= 0 && TimeOrdered(ops, clock)
    requires InRange(p, b) && (b.Some? ==> b.value.lastRefill <= clock)
    ensures InRange(p, Serve(Memory, p, b, ops).0)
    decreases |ops|
  {
    if ops != [] {
      if ops[0].Take? {
        EarnedNonneg(p, ops[0].at - (if b.Some? then b.value.lastRefill else ops[0].at));
      }
      hide Earned;
      MemStaysInRange(p, BucketStep(Memory, p, b, ops[0]).0, ops[1..], if ops[0].Take? then ops[0].at else clock);
    }
  }

  /** In memory the token count stays within [0, capacity] on every time-ordered run exactly when the configured
      rate is not negative (a negative rate drains the zero-capacity bucket below zero). */
  lemma MemRangeIff(p: Policy)
    ensures (forall ops :: TimeOrdered(ops, 0.0) ==> InRange(p, Serve(Memory, p, None, ops).0))
              <==> p.perMinute >= 0
  {
    if p.perMinute >= 0 {
      forall ops | TimeOrdered(ops, 0.0) ensures InRange(p, Serve(Memory, p, None, ops).0) {
        MemStaysInRange(p, None, ops, 0.0);
      }
    } else {
      var ops := [Take(0.0)] + [Take(60.0)];
      assert ops[1..] == [Take(60.0)] && ops[1..][1..] == [];
      assert TimeOrdered([], 60.0);
      assert TimeOrdered(ops[1..], 0.0);
      assert TimeOrdered(ops, 0.0);
      var b := BucketStep(Memory, p, None, Take(0.0)).0;
      ServeCons(Memory, p, None, Take(0.0), [Take(60.0)]);
      ServeCons(Memory, p, b, Take(60.0), []);
      assert [Take(60.0)] + [] == [Take(60.0)];
      EarnedSplit(p, 0.0, 0.0);
      assert b == Some(Bucket(0.0, 0.0));
      assert (60.0 - 0.0) * p.Rate() == p.perMinute as real;
      assert !InRange(p, Serve(Memory, p, None, ops).0);
    }
  }

  function Denials(outs: seq<Outcome>): nat {
    if outs == [] then 0
    else (if outs[0].Denied() then 1 else 0) + Denials(outs[1..])
  }

  ghost predicate PgFloor(p: Policy, row: Option<Bucket>, clock: real, floor: real) {
    && floor <= 0.0
    && (row.Some? ==>
          && row.value.lastRefill <= clock + MICROSECOND
          && row.value.tokens <= p.Capacity()
          && row.value.tokens >= floor
          && row.value.tokens - Earned(p, row.value.lastRefill - clock) >= floor)
  }

  lemma PgFloorTake(p: Policy, row: Option<Bucket>, clock: real, floor: real, now: real)
    requires p.perMinute >= 0 && PgFloor(p, row, clock, floor) && clock <= now
    ensures var r := PgTake(p, row, now);
            PgFloor(p, Some(r.0), now, floor - (if r.1.allowed then 0.0 else Earned(p, MICROSECOND)))
  {
    EarnedNonneg(p, MICROSECOND);
    EarnedNonneg(p, now - clock);
    EarnedSplit(p, 0.0, 0.0);
    assert now - now == 0.0 && now + MICROSECOND - now == MICROSECOND;
    if row.Some? {
      var l := row.value.lastRefill;
      EarnedSplit(p, now - l, l - clock);
      assert (now - l) + (l - clock) == now - clock;
    }
    hide Earned;
  }

  lemma PgFloorGiveBack(p: Policy, row: Bucket, clock: real, floor: real)
    requires PgFloor(p, Some(row), clock, floor)
    ensures PgFloor(p, Some(GiveBackTo(p, row)), clock, floor)
  {
  }

  /** `n` microseconds of refill. */
  function RefillLoss(p: Policy, n: nat): real { n as real * Earned(p, MICROSECOND) }

  /** In Postgres the row can fall below zero, but by at most one microsecond of refill per denial. */
  lemma {:induction false} PgTokenFloor(p: Policy, row: Option<Bucket>, ops: seq<Op>, clock: real, floor: real)
    requires p.perMinute >= 0 && TimeOrdered(ops, clock) && PgFloor(p, row, clock, floor)
    ensures var r := Serve(Postgres, p, row, ops);
            r.0.Some? ==> floor - RefillLoss(p, Denials(r.1)) <= r.0.value.tokens <= p.Capacity()
    decreases |ops|
  {
    if ops != [] {
      var s := BucketStep(Postgres, p, row, ops[0]);
      var rest := Serve(Postgres, p, s.0, ops[1..]);
      DenialsCons(s.1, rest.1);
      RefillLossNext(p, Denials(rest.1));
      match ops[0] {
        case Take(now) =>
          PgFloorTake(p, row, clock, floor, now);
          hide TakeOn, PgFloor, RefillLoss, Earned;
          PgTokenFloor(p, s.0, ops[1..], now, if s.1.Admitted() then floor else floor - Earned(p, MICROSECOND));
        case GiveBack =>
          if row.Some? { PgFloorGiveBack(p, row.value, clock, floor); }
          hide PgFloor, RefillLoss, Earned;
          PgTokenFloor(p, s.0, ops[1..], clock, floor);
      }
    }
  }

  lemma RefillLossNext(p: Policy, n: nat)
    ensures RefillLoss(p, n + 1) == RefillLoss(p, n) + Earned(p, MICROSECOND)
  {
  }

  lemma DenialsCons(o: Outcome, rest: seq<Outcome>)
    ensures Denials([o] + rest) == Denials(rest) + (if o.Denied() then 1 else 0)
  {
    assert ([o] + rest)[1..] == rest;
  }

  /** A check leaves the row within [0, capacity] exactly when the refill does not come out negative, which whoever knows
      the row can tell beforehand; a missing row is always created in range. Whatever the policy. */
  lemma PgTakeInRangeIff(p: Policy, row: Option<Bucket>, now: real)
    ensures InRange(p, Some(PgTake(p, row, now).0))
       <==> (row.Some? ==> row.value.tokens + Earned(p, now - row.value.lastRefill) >= 0.0)
  {
    hide Earned;
  }

  /** Checks come no earlier than `clock`, and each at least one microsecond after the one before. */
  ghost predicate Spaced(ops: seq<Op>, clock: real)
    decreases ops
  {
    ops == [] ||
    match ops[0]
    case Take(at) => clock <= at && Spaced(ops[1..], at + MICROSECOND)
    case GiveBack => Spaced(ops[1..], clock)
  }

  lemma {:induction false} PgStaysInRange(p: Policy, row: Option<Bucket>, ops: seq<Op>, clock: real)
    requires p.perMinute >= 0 && Spaced(ops, clock)
    requires InRange(p, row) && (row.Some? ==> row.value.lastRefill <= clock)
    ensures InRange(p, Serve(Postgres, p, row, ops).0)
    decreases |ops|
  {
    if ops != [] {
      if ops[0].Take? {
        EarnedNonneg(p, ops[0].at - (if row.Some? then row.value.lastRefill else ops[0].at));
        PgTakeInRangeIff(p, row, ops[0].at);
      }
      hide Earned;
      PgStaysInRange(p, BucketStep(Postgres, p, row, ops[0]).0, ops[1..],
                     if ops[0].Take? then ops[0].at + MICROSECOND else clock);
    }
  }

  /** In Postgres the row stays within [0, capacity] on every run whose checks are a microsecond apart exactly when the
      configured rate is not negative. */
  lemma PgSpacedRangeIff(p: Policy)
    ensures (forall ops :: Spaced(ops, 0.0) ==> InRange(p, Serve(Postgres, p, None, ops).0)) <==> p.perMinute >= 0
  {
    if p.perMinute >= 0 {
      forall ops | Spaced(ops, 0.0) ensures InRange(p, Serve(Postgres, p, None, ops).0) {
        PgStaysInRange(p, None, ops, 0.0);
      }
    } else {
      var ops := NegativeRateDrains(p);
      assert Spaced(ops, 0.0) && !InRange(p, Serve(Postgres, p, None, ops).0);
    }
  }

  lemma NegativeRateDrains(p: Policy) returns (ops: seq<Op>)
    requires p.perMinute < 0
    ensures Spaced(ops, 0.0) && !InRange(p, Serve(Postgres, p, None, ops).0)
  {
    ops := [Take(0.0)] + [Take(60.000001)];
    assert ops[1..] == [Take(60.000001)] && ops[1..][1..] == [];
    assert Spaced([], 60.000002);
    assert Spaced(ops[1..], 0.000001);
    assert Spaced(ops, 0.0);
    var row := BucketStep(Postgres, p, None, Take(0.0)).0;
    ServeCons(Postgres, p, None, Take(0.0), [Take(60.000001)]);
    ServeCons(Postgres, p, row, Take(60.000001), []);
    assert [Take(60.000001)] + [] == [Take(60.000001)];
    assert row == Some(Bucket(0.0, 0.000001));
    assert Earned(p, 60.0) == p.perMinute as real;
    PgTakeInRangeIff(p, row, 60.000001);
  }

  /** `n` checks at one instant. */
  function Burst(at: real, n: nat): seq<Op> { if n == 0 then [] else [Take(at)] + Burst(at, n - 1) }

  lemma {:induction false} BurstOrdered(at: real, n: nat, clock: real)
    requires clock <= at
    ensures TimeOrdered(Burst(at, n), clock)
    decreases n
  {
    if n > 0 {
      BurstOrdered(at, n - 1, at);
      assert Burst(at, n)[1..] == Burst(at, n - 1);
    }
  }

  /** Each check at one instant beyond the tokens there are, after the first, takes a microsecond of refill more. */
  lemma {:induction false} BurstDepth(p: Policy, tokens: nat, at: real, m: nat)
    requires p.perMinute > 0 && tokens <= p.CapacityInt()
    ensures Serve(Postgres, p, Some(Bucket(tokens as real, at)), Burst(at, tokens + 1 + m)).0
         == Some(Bucket(-RefillLoss(p, m), at + MICROSECOND))
    decreases tokens
  {
    var b := Bucket(tokens as real, at);
    var s := BucketStep(Postgres, p, Some(b), Take(at)).0;
    EarnedSplit(p, 0.0, 0.0);
    assert at - at == 0.0;
    hide Earned, RefillLoss;
    ServeCons(Postgres, p, Some(b), Take(at), Burst(at, tokens + m));
    if tokens > 0 {
      assert s == Some(Bucket((tokens - 1) as real, at));
      BurstDepth(p, tokens - 1, at, m);
    } else {
      assert s == Some(Bucket(0.0, at + MICROSECOND));
      NoLoss(p);
      DeniedDepth(p, 0, at, m);
    }
  }

  lemma {:induction false} DeniedDepth(p: Policy, k: nat, at: real, m: nat)
    requires p.perMinute > 0
    ensures Serve(Postgres, p, Some(Bucket(-RefillLoss(p, k), at + MICROSECOND)), Burst(at, m)).0
         == Some(Bucket(-RefillLoss(p, k + m), at + MICROSECOND))
    decreases m
  {
    if m > 0 {
      var b := Bucket(-RefillLoss(p, k), at + MICROSECOND);
      assert at - (at + MICROSECOND) == -MICROSECOND;
      EarnedOpposite(p, MICROSECOND);
      RefillLossNext(p, k);
      RefillLossPositive(p, k + 1);
      hide Earned, RefillLoss;
      ServeCons(Postgres, p, Some(b), Take(at), Burst(at, m - 1));
      DeniedDepth(p, k + 1, at, m - 1);
    }
  }

  lemma NoLoss(p: Policy)
    ensures RefillLoss(p, 0) == 0.0
  {
  }

  lemma EarnedOpposite(p: Policy, t: real)
    ensures Earned(p, -t) == -Earned(p, t)
  {
  }

  lemma {:induction false} RefillLossPositive(p: Policy, n: nat)
    requires p.perMinute > 0
    ensures n > 0 ==> RefillLoss(p, n) > 0.0
    ensures n == 0 ==> RefillLoss(p, n) == 0.0
  {
    if n > 0 {
      RefillLossPositive(p, n - 1);
      RefillLossNext(p, n - 1);
      assert Earned(p, MICROSECOND) > 0.0;
    }
  }

  /** On arbitrary time-ordered runs the Postgres row stays within [0, capacity] only when the rate is exactly zero: any
      positive rate lets a burst at one instant push it below zero, any negative rate drains it. */
  lemma PgRangeIff(p: Policy)
    ensures (forall ops :: TimeOrdered(ops, 0.0) ==> InRange(p, Serve(Postgres, p, None, ops).0)) <==> p.perMinute == 0
  {
    if p.perMinute == 0 {
      forall ops | TimeOrdered(ops, 0.0) ensures InRange(p, Serve(Postgres, p, None, ops).0) {
        ZeroRateStaysEmpty(p, None, ops);
      }
    } else if p.perMinute > 0 {
      var ops := [Take(0.0)] + Burst(0.0, p.CapacityInt() + 1);
      assert ops == Burst(0.0, p.CapacityInt() + 2);
      BurstOrdered(0.0, p.CapacityInt() + 2, 0.0);
      ServeCons(Postgres, p, None, Take(0.0), Burst(0.0, p.CapacityInt() + 1));
      BurstDepth(p, p.CapacityInt() - 1, 0.0, 1);
      RefillLossPositive(p, 1);
      assert !InRange(p, Serve(Postgres, p, None, ops).0);
    } else {
      var ops := NegativeRateDrains(p);
      SpacedIsOrdered(ops, 0.0, 0.0);
      assert TimeOrdered(ops, 0.0) && !InRange(p, Serve(Postgres, p, None, ops).0);
    }
  }

  lemma {:induction false} SpacedIsOrdered(ops: seq<Op>, clock: real, earlier: real)
    requires Spaced(ops, clock) && earlier <= clock
    ensures TimeOrdered(ops, earlier)
    decreases ops
  {
    if ops != [] {
      match ops[0] {
        case Take(at) => SpacedIsOrdered(ops[1..], at + MICROSECOND, at);
        case GiveBack => SpacedIsOrdered(ops[1..], clock, earlier);
      }
    }
  }

  lemma {:induction false} ZeroRateStaysEmpty(p: Policy, row: Option<Bucket>, ops: seq<Op>)
    requires p.perMinute == 0 && (row.Some? ==> row.value.tokens == 0.0)
    ensures InRange(p, Serve(Postgres, p, row, ops).0)
    decreases |ops|
  {
    if ops != [] { ZeroRateStaysEmpty(p, BucketStep(Postgres, p, row, ops[0]).0, ops[1..]); }
  }

  lemma PgTokensCanGoNegative()
    ensures var r := Serve(Postgres, UNIT, None, [Take(0.0), Take(0.0), Take(0.0), Take(0.0)]);
            r.0.Some? && r.0.value.tokens < 0.0
  {
    UnitFirst(Postgres, 0.0);
    UnitTake(Bucket(0.0, 0.0), 0.0);
    UnitTake(Bucket(0.0, 0.000001), 0.0);
    UnitTake(Bucket(-0.000001, 0.000001), 0.0);
    ServeFour(Postgres, UNIT, None, Take(0.0), Take(0.0), Take(0.0), Take(0.0));
    hide TakeOn, Serve;
  }

  // ---------------------------------------------------------------- what a refund gives back

  /** Tokens the key could take at `clock`; a missing bucket would be created full. */
  function Available(p: Policy, b: Option<Bucket>, clock: real): real {
    if b.None? then p.Capacity() else Refill(p, b.value.tokens, clock - b.value.lastRefill)
  }

  /** Buckets that no time-ordered run from `clock` on can tell apart: equal, or refilled to the same count by then. */
  ghost predicate Alike(p: Policy, b1: Option<Bucket>, b2: Option<Bucket>, clock: real) {
    || b1 == b2
    || (&& Available(p, b1, clock) == Available(p, b2, clock)
        && (b1.Some? ==> b1.value.lastRefill <= clock) && (b2.Some? ==> b2.value.lastRefill <= clock))
  }

  /** What can be taken later depends only on what can be taken now. */
  lemma AvailableFromNow(p: Policy, b: Option<Bucket>, clock: real, now: real)
    requires p.perMinute >= 0 && clock <= now && (b.Some? ==> b.value.lastRefill <= clock)
    ensures Available(p, b, now) == Min(p.Capacity(), Available(p, b, clock) + Earned(p, now - clock))
  {
    EarnedNonneg(p, now - clock);
    if b.Some? {
      EarnedSplit(p, clock - b.value.lastRefill, now - clock);
      assert clock - b.value.lastRefill + (now - clock) == now - b.value.lastRefill;
    }
    hide Earned;
  }

  /** A refund adds one token to what can be taken, up to the capacity; a missing bucket is full already. */
  lemma RefundAddsOne(w: Backend, p: Policy, b: Option<Bucket>, clock: real)
    requires p.perMinute >= 0 && (b.Some? ==> b.value.lastRefill <= clock)
    ensures var after := BucketStep(w, p, b, GiveBack).0;
            && Available(p, after, clock) == Min(p.Capacity(), Available(p, b, clock) + 1.0)
            && (after.Some? ==> b.Some? && after.value.lastRefill == b.value.lastRefill)
  {
    if b.Some? { EarnedNonneg(p, clock - b.value.lastRefill); }
    hide Earned;
  }

  /** A check depends only on what can be taken. */
  lemma TakeFromAvailable(w: Backend, p: Policy, b1: Option<Bucket>, b2: Option<Bucket>, now: real)
    requires Available(p, b1, now) == Available(p, b2, now)
    ensures BucketStep(w, p, b1, Take(now)) == BucketStep(w, p, b2, Take(now))
  {
    EarnedSplit(p, 0.0, 0.0);
    hide Earned;
  }

  lemma {:induction false} AlikeServeAlike(w: Backend, p: Policy, b1: Option<Bucket>, b2: Option<Bucket>, ops: seq<Op>, clock: real)
    requires p.perMinute >= 0 && TimeOrdered(ops, clock) && Alike(p, b1, b2, clock)
    ensures Serve(w, p, b1, ops).1 == Serve(w, p, b2, ops).1
    decreases |ops|
  {
    hide BucketStep, Available, Refill, Earned, TimeOrdered;
    if ops != [] && b1 != b2 {
      OrderedTail(ops, clock);
      var s1, s2 := BucketStep(w, p, b1, ops[0]), BucketStep(w, p, b2, ops[0]);
      match ops[0] {
        case Take(now) =>
          AvailableFromNow(p, b1, clock, now);
          AvailableFromNow(p, b2, clock, now);
          TakeFromAvailable(w, p, b1, b2, now);
          AlikeServeAlike(w, p, s1.0, s2.0, ops[1..], now);
        case GiveBack =>
          RefundAddsOne(w, p, b1, clock);
          RefundAddsOne(w, p, b2, clock);
          RefundIsSilent(w, p, b1);
          RefundIsSilent(w, p, b2);
          AlikeServeAlike(w, p, s1.0, s2.0, ops[1..], clock);
      }
    }
  }

  lemma OrderedTail(ops: seq<Op>, clock: real)
    requires ops != [] && TimeOrdered(ops, clock)
    ensures ops[0].Take? ==> clock <= ops[0].at && TimeOrdered(ops[1..], ops[0].at)
    ensures ops[0].GiveBack? ==> TimeOrdered(ops[1..], clock)
  {
  }

  lemma RefundIsSilent(w: Backend, p: Policy, b: Option<Bucket>)
    ensures BucketStep(w, p, b, GiveBack).1 == Refunded
  {
  }

  /** A refund undoes an admission: on either back end, an admitted check that is refunded at once leaves every later
      answer as if it had never been made. */
  lemma RefundUndoesAdmission(w: Backend, p: Policy, b: Option<Bucket>, now: real, rest: seq<Op>)
    requires (b.Some? ==> b.value.lastRefill <= now) && TimeOrdered(rest, now)
    requires BucketStep(w, p, b, Take(now)).1.Admitted()
    ensures Serve(w, p, b, [Take(now), GiveBack] + rest).1 == [Checked(Verdict(true, 0.0)), Refunded] + Serve(w, p, b, rest).1
  {
    var taken := BucketStep(w, p, b, Take(now));
    var back := BucketStep(w, p, taken.0, GiveBack);
    AdmittedHadAToken(w, p, b, now);
    hide Earned;
    assert [Take(now), GiveBack] + rest == [Take(now)] + ([GiveBack] + rest);
    ServeCons(w, p, b, Take(now), [GiveBack] + rest);
    ServeCons(w, p, taken.0, GiveBack, rest);
    AlikeServeAlike(w, p, back.0, b, rest, now);
  }

  lemma AdmittedHadAToken(w: Backend, p: Policy, b: Option<Bucket>, now: real)
    requires b.Some? ==> b.value.lastRefill <= now
    requires BucketStep(w, p, b, Take(now)).1.Admitted()
    ensures p.perMinute > 0 && BucketStep(w, p, b, Take(now)).1 == Checked(Verdict(true, 0.0))
    ensures var back := BucketStep(w, p, BucketStep(w, p, b, Take(now)).0, GiveBack).0;
            back.Some? && back.value.lastRefill == now && Available(p, back, now) == Available(p, b, now)
  {
    EarnedSplit(p, 0.0, 0.0);
    hide Earned;
  }

  /** In particular the same check is admitted again. */
  lemma RefundAdmitsAgain(w: Backend, p: Policy, b: Option<Bucket>, now: real)
    requires b.Some? ==> b.value.lastRefill <= now
    ensures var outs := Serve(w, p, b, [Take(now), GiveBack, Take(now)]).1;
            outs[0].Admitted() ==> outs[2].Admitted()
  {
    var ops := [Take(now), GiveBack, Take(now)];
    var first := BucketStep(w, p, b, Take(now));
    ServeCons(w, p, b, Take(now), [GiveBack, Take(now)]);
    ServeCons(w, p, b, Take(now), []);
    assert ops == [Take(now)] + [GiveBack, Take(now)] && [Take(now)] + [] == [Take(now)];
    if first.1.Admitted() {
      assert TimeOrdered([], now) && [Take(now)][1..] == [];
      assert TimeOrdered([Take(now)], now);
      hide Serve;
      RefundUndoesAdmission(w, p, b, now, [Take(now)]);
      assert ops == [Take(now), GiveBack] + [Take(now)];
    }
  }

  // ---------------------------------------------------------------- what the policy means

  /** At a positive rate, `n` checks at one instant on a new key admit exactly the first max(burst, 1) of them. */
  lemma FreshKeyAdmitsItsBurst(w: Backend, p: Policy, at: real, n: nat)
    requires p.perMinute > 0
    ensures var size := if p.burst >= 1 then p.burst else 1;
            Admissions(Serve(w, p, None, Burst(at, n)).1) == if n <= size then n else size
  {
    if n > 0 {
      var s := BucketStep(w, p, None, Take(at));
      EarnedSplit(p, 0.0, 0.0);
      ServeCons(w, p, None, Take(at), Burst(at, n - 1));
      assert s == (Some(Bucket((p.CapacityInt() - 1) as real, at)), Checked(Verdict(true, 0.0)));
      BurstAdmits(w, p, (p.CapacityInt() - 1) as real, at, n - 1, p.CapacityInt() - 1);
      assert ([s.1] + Serve(w, p, s.0, Burst(at, n - 1)).1)[1..] == Serve(w, p, s.0, Burst(at, n - 1)).1;
    }
  }

  lemma {:induction false} BurstAdmits(w: Backend, p: Policy, tokens: real, at: real, n: nat, whole: nat)
    requires p.perMinute > 0 && tokens == whole as real && whole <= p.CapacityInt()
    ensures Admissions(Serve(w, p, Some(Bucket(tokens, at)), Burst(at, n)).1) == if n <= whole then n else whole
    decreases n
  {
    if n > 0 {
      var b := Some(Bucket(tokens, at));
      var s := BucketStep(w, p, b, Take(at));
      EarnedSplit(p, 0.0, 0.0);
      assert at - at == 0.0;
      hide Earned;
      ServeCons(w, p, b, Take(at), Burst(at, n - 1));
      assert ([s.1] + Serve(w, p, s.0, Burst(at, n - 1)).1)[1..] == Serve(w, p, s.0, Burst(at, n - 1)).1;
      if whole > 0 {
        BurstAdmits(w, p, tokens - 1.0, at, n - 1, whole - 1);
      } else {
        DeniedBurst(w, p, s.0, at, n - 1);
      }
    }
  }

  /** A row without a whole token stays so for the rest of the instant. */
  lemma {:induction false} DeniedBurst(w: Backend, p: Policy, b: Option<Bucket>, at: real, n: nat)
    requires p.perMinute > 0 && b.Some? && b.value.tokens < 1.0 && at <= b.value.lastRefill
    ensures Admissions(Serve(w, p, b, Burst(at, n)).1) == 0
    decreases n
  {
    if n > 0 {
      var s := BucketStep(w, p, b, Take(at));
      EarnedNonneg(p, b.value.lastRefill - at);
      EarnedOpposite(p, b.value.lastRefill - at);
      assert -(b.value.lastRefill - at) == at - b.value.lastRefill;
      hide Earned;
      ServeCons(w, p, b, Take(at), Burst(at, n - 1));
      assert ([s.1] + Serve(w, p, s.0, Burst(at, n - 1)).1)[1..] == Serve(w, p, s.0, Burst(at, n - 1)).1;
      DeniedBurst(w, p, s.0, at, n - 1);
    }
  }
}
