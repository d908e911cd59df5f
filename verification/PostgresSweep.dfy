/** The idle sweep of the Postgres limiter (`_RATE_LIMIT_SWEEP_SQL` in hub/abuse.py), on the row of one key. Any check of
    any key in any process may run it, so sweeps may come at any moment. Unlike the in-memory sweep it compares with `<`,
    and the row it deletes may hold less than zero. */
module PostgresSweep {
  import opened Common
  import opened TokenBucket

  datatype Event = Check(at: real) | Refund | Sweep(at: real)

  /** The row after an event; without a TTL nothing is ever swept. */
  function RowAfter(p: Policy, ttl: Option<real>, row: Option<Bucket>, e: Event): Option<Bucket> {
    match e
    case Check(at) => Some(PgTake(p, row, at).0)
    case Refund => if row.Some? then Some(GiveBackTo(p, row.value)) else None
    case Sweep(at) => if ttl.Some? && row.Some? && row.value.lastRefill < at - ttl.value then None else row
  }

  /** What an event shows to the callers of the key. */
  function Shown(p: Policy, row: Option<Bucket>, e: Event): seq<Verdict> {
    if e.Check? then [PgTake(p, row, e.at).1] else []
  }

  function Answers(p: Policy, ttl: Option<real>, row: Option<Bucket>, evs: seq<Event>): seq<Verdict>
    decreases |evs|
  {
    if evs == [] then [] else Shown(p, row, evs[0]) + Answers(p, ttl, RowAfter(p, ttl, row, evs[0]), evs[1..])
  }

  /** The clock never runs backwards, and checks are at least `gap` apart; the next may come at `next`. */
  ghost predicate Legal(evs: seq<Event>, gap: real, now: real, next: real)
    decreases |evs|
  {
    evs == [] ||
    (&& (evs[0].Refund? || now <= evs[0].at) && (evs[0].Check? ==> next <= evs[0].at)
     && Legal(evs[1..], gap, if evs[0].Refund? then now else evs[0].at, if evs[0].Check? then evs[0].at + gap else next))
  }

  ghost predicate SameAnswers(p: Policy, ttl: real, evs: seq<Event>) {
    Answers(p, Some(ttl), None, evs) == Answers(p, None, None, evs)
  }

  lemma AnswersCons(p: Policy, ttl: Option<real>, row: Option<Bucket>, e: Event, rest: seq<Event>)
    ensures Answers(p, ttl, row, [e] + rest) == Shown(p, row, e) + Answers(p, ttl, RowAfter(p, ttl, row, e), rest)
  {
    assert ([e] + rest)[1..] == rest;
  }

  lemma CheckFirst(at: real, rest: seq<Event>, gap: real, now: real, next: real)
    requires now <= at && next <= at && Legal(rest, gap, at, at + gap)
    ensures Legal([Check(at)] + rest, gap, now, next)
  {
    assert ([Check(at)] + rest)[1..] == rest;
  }

  lemma SweepFirst(at: real, rest: seq<Event>, gap: real, now: real, next: real)
    requires now <= at && Legal(rest, gap, at, next)
    ensures Legal([Sweep(at)] + rest, gap, now, next)
  {
    assert ([Sweep(at)] + rest)[1..] == rest;
  }

  /** A sweep deletes a row exactly when it has been idle for longer than the TTL; one idle for just the TTL stays. */
  lemma SweepDeletesIff(p: Policy, ttl: real, row: Bucket, at: real)
    ensures RowAfter(p, Some(ttl), Some(row), Sweep(at)) == if at - row.lastRefill > ttl then None else Some(row)
    ensures RowAfter(p, None, Some(row), Sweep(at)) == Some(row) && RowAfter(p, Some(ttl), None, Sweep(at)) == None
  {
  }

  // ---------------------------------------------------------------- when the sweep cannot be seen

  /** With a rate of zero or less every check is denied alike. */
  lemma {:induction false} DeniedAlike(p: Policy, ttl1: Option<real>, ttl2: Option<real>, row1: Option<Bucket>,
                                       row2: Option<Bucket>, evs: seq<Event>)
    requires p.perMinute <= 0
    ensures Answers(p, ttl1, row1, evs) == Answers(p, ttl2, row2, evs)
    decreases |evs|
  {
    if evs != [] {
      DeniedAlike(p, ttl1, ttl2, RowAfter(p, ttl1, row1, evs[0]), RowAfter(p, ttl2, row2, evs[0]), evs[1..]);
    }
  }

  /** A row that will hold a whole token when the next check may come. */
  ghost predicate Ready(row: Option<Bucket>, next: real) {
    row.Some? ==> row.value.tokens >= 0.0 && row.value.lastRefill + MICROSECOND <= next
  }

  lemma ReadyTake(p: Policy, row: Option<Bucket>, at: real)
    requires p.perMinute > 0 && Earned(p, MICROSECOND) >= 1.0 && Ready(row, at)
    ensures PgTake(p, row, at).1 == Verdict(true, 0.0) && Ready(Some(PgTake(p, row, at).0), at + MICROSECOND)
  {
    if row.Some? {
      var idle := at - row.value.lastRefill;
      EarnedSplit(p, MICROSECOND, idle - MICROSECOND);
      EarnedNonneg(p, idle - MICROSECOND);
      assert MICROSECOND + (idle - MICROSECOND) == idle;
    }
    hide Earned;
  }

  /** A token or more every microsecond: spaced checks are all admitted, swept or not. */
  lemma {:induction false} AdmittedAlike(p: Policy, ttl1: Option<real>, ttl2: Option<real>, row1: Option<Bucket>,
                                         row2: Option<Bucket>, evs: seq<Event>, now: real, next: real)
    requires p.perMinute > 0 && Earned(p, MICROSECOND) >= 1.0 && Legal(evs, MICROSECOND, now, next)
    requires Ready(row1, next) && Ready(row2, next)
    ensures Answers(p, ttl1, row1, evs) == Answers(p, ttl2, row2, evs)
    decreases |evs|
  {
    hide Earned, PgTake;
    if evs != [] {
      var e := evs[0];
      if e.Check? {
        ReadyTake(p, row1, e.at);
        ReadyTake(p, row2, e.at);
      }
      AdmittedAlike(p, ttl1, ttl2, RowAfter(p, ttl1, row1, e), RowAfter(p, ttl2, row2, e), evs[1..],
                    if e.Refund? then now else e.at, if e.Check? then e.at + MICROSECOND else next);
    }
  }

  /** The kept row is in range, and the swept one equal to it or deleted after a whole TTL. */
  ghost predicate Agree(p: Policy, ttl: real, kept: Option<Bucket>, swept: Option<Bucket>, now: real, next: real) {
    && InRange(p, kept) && (kept.Some? ==> kept.value.lastRefill <= next)
    && (swept == kept || (swept.None? && kept.Some? && kept.value.lastRefill < now - ttl))
  }

  lemma AgreeTake(p: Policy, ttl: real, kept: Option<Bucket>, swept: Option<Bucket>, now: real, next: real, at: real)
    requires p.perMinute > 0 && Earned(p, ttl) >= p.Capacity()
    requires Agree(p, ttl, kept, swept, now, next) && now <= at && next <= at
    ensures PgTake(p, kept, at) == PgTake(p, swept, at)
    ensures Agree(p, ttl, Some(PgTake(p, kept, at).0), Some(PgTake(p, swept, at).0), at, at + MICROSECOND)
  {
    PgTakeInRangeIff(p, kept, at);
    if kept.Some? {
      var idle := at - kept.value.lastRefill;
      EarnedNonneg(p, idle);
      if kept != swept {
        EarnedSplit(p, ttl, idle - ttl);
        EarnedNonneg(p, idle - ttl);
        assert ttl + (idle - ttl) == idle;
      }
    }
    hide Earned;
  }

  lemma {:induction false} AgreeRun(p: Policy, ttl: real, kept: Option<Bucket>, swept: Option<Bucket>, evs: seq<Event>,
                                    now: real, next: real)
    requires p.perMinute > 0 && Earned(p, ttl) >= p.Capacity()
    requires Agree(p, ttl, kept, swept, now, next) && Legal(evs, MICROSECOND, now, next)
    ensures Answers(p, Some(ttl), swept, evs) == Answers(p, None, kept, evs)
    decreases |evs|
  {
    hide Earned, PgTake;
    if evs != [] {
      var e := evs[0];
      if e.Check? { AgreeTake(p, ttl, kept, swept, now, next, e.at); }
      AgreeRun(p, ttl, RowAfter(p, None, kept, e), RowAfter(p, Some(ttl), swept, e), evs[1..],
               if e.Refund? then now else e.at, if e.Check? then e.at + MICROSECOND else next);
    }
  }

  // ---------------------------------------------------------------- when it can

  /** `n` times what a check a microsecond after the last one takes from the row. */
  function Drained(p: Policy, n: nat): real { n as real * (1.0 - Earned(p, MICROSECOND)) }

  lemma DrainedNext(p: Policy, n: nat)
    requires n > 0
    ensures Drained(p, n - 1) == Drained(p, n) - (1.0 - Earned(p, MICROSECOND))
    ensures Drained(p, 0) == 0.0
  {
  }

  lemma EnoughChecks(p: Policy, x: real) returns (n: nat)
    requires Earned(p, MICROSECOND) < 1.0 && x >= 0.0
    ensures x <= Drained(p, n)
  {
    var step := 1.0 - Earned(p, MICROSECOND);
    n := Quotient(x, step);
  }

  lemma Quotient(x: real, step: real) returns (n: nat)
    requires x >= 0.0 && step > 0.0
    ensures x <= n as real * step
  {
    var q := x / step;
    assert q * step == x;
    assert q >= 0.0;
    n := q.Floor + 1;
    MultiplyUp(q, n as real, step);
  }

  lemma MultiplyUp(a: real, b: real, r: real)
    requires a <= b && r > 0.0
    ensures a * r <= b * r
  {
    assert (b - a) * r >= 0.0;
  }

  lemma {:induction false} DrainedNonneg(p: Policy, n: nat)
    requires Earned(p, MICROSECOND) < 1.0
    ensures Drained(p, n) >= 0.0
  {
    DrainedStart(p, n);
    if n > 0 {
      DrainedNext(p, n);
      DrainedNonneg(p, n - 1);
    }
  }

  /** Two rows that differ are told apart by checks a microsecond apart: at the first denial at the latest. */
  lemma {:induction false} DrainApart(p: Policy, ttl1: Option<real>, ttl2: Option<real>, x: real, y: real, last: real, n: nat)
      returns (evs: seq<Event>)
    requires p.perMinute > 0 && Earned(p, MICROSECOND) < 1.0 && 0.0 <= x < y <= p.Capacity() - 1.0 && x <= Drained(p, n)
    ensures Legal(evs, MICROSECOND, last, last + MICROSECOND)
    ensures Answers(p, ttl1, Some(Bucket(x, last)), evs) != Answers(p, ttl2, Some(Bucket(y, last)), evs)
    decreases n
  {
    var at, step := last + MICROSECOND, Earned(p, MICROSECOND);
    assert at - last == MICROSECOND;
    var a, b := PgTake(p, Some(Bucket(x, last)), at), PgTake(p, Some(Bucket(y, last)), at);
    var rest := [];
    DrainedStart(p, n);
    if x + step >= 1.0 {
      EarnedNonneg(p, MICROSECOND);
      DrainedNext(p, n);
      hide Earned, Drained;
      rest := DrainApart(p, ttl1, ttl2, x + step - 1.0, y + step - 1.0, at, n - 1);
      assert a.0 == Bucket(x + step - 1.0, at) && b.0 == Bucket(y + step - 1.0, at);
    } else {
      HintsDiffer(p, x + step, y + step);
      assert a.1 != b.1;
    }
    hide PgTake, Legal, Answers;
    evs := [Check(at)] + rest;
    CheckFirst(at, rest, MICROSECOND, last, last + MICROSECOND);
    AnswersCons(p, ttl1, Some(Bucket(x, last)), Check(at), rest);
    AnswersCons(p, ttl2, Some(Bucket(y, last)), Check(at), rest);
    ConsDiffers(a.1, Answers(p, ttl1, Some(a.0), rest), b.1, Answers(p, ttl2, Some(b.0), rest));
  }

  lemma DrainedStart(p: Policy, n: nat)
    ensures n == 0 ==> Drained(p, n) == 0.0
  {
  }

  lemma ConsDiffers<T>(a: T, s: seq<T>, b: T, t: seq<T>)
    requires a != b || s != t
    ensures [a] + s != [b] + t
  {
    assert ([a] + s)[0] == a && ([b] + t)[0] == b;
    assert ([a] + s)[1..] == s && ([b] + t)[1..] == t;
  }

  lemma HintsDiffer(p: Policy, a: real, b: real)
    requires p.perMinute > 0 && a != b
    ensures RetryAfter(p, a) != RetryAfter(p, b)
  {
    assert 1.0 - a == RetryAfter(p, a) * p.Rate();
    assert 1.0 - b == RetryAfter(p, b) * p.Rate();
  }

  lemma HalfwayBetween(p: Policy, ttl: real) returns (idle: real)
    requires p.perMinute > 0 && Earned(p, MICROSECOND) < 1.0 && Earned(p, ttl) < p.Capacity()
    ensures idle > ttl && idle > MICROSECOND && Earned(p, idle) < p.Capacity()
  {
    var low := if ttl > MICROSECOND then ttl else MICROSECOND;
    idle := Beyond(low, p.Capacity(), p.Rate());
  }

  lemma Beyond(low: real, cap: real, r: real) returns (t: real)
    requires r > 0.0 && low * r < cap
    ensures t > low && t * r < cap
  {
    var gap := (cap - low * r) / 2.0;
    var more := gap / r;
    assert more * r == gap;
    if more <= 0.0 { MultiplyUp(more, 0.0, r); }
    t := low + more;
    assert t * r == low * r + more * r;
  }

  /** An empty row, idle a little longer than a TTL that does not refill it, is told apart from a deleted one. */
  lemma EmptyRowTells(p: Policy, ttl: real, last: real) returns (evs: seq<Event>)
    requires p.perMinute > 0 && Earned(p, MICROSECOND) < 1.0 && Earned(p, ttl) < p.Capacity() && ttl >= 0.0
    ensures Legal(evs, MICROSECOND, last, last + MICROSECOND)
    ensures Answers(p, Some(ttl), Some(Bucket(0.0, last)), evs) != Answers(p, None, Some(Bucket(0.0, last)), evs)
  {
    var row := Bucket(0.0, last);
    var idle := HalfwayBetween(p, ttl);
    var at, x := last + idle, Earned(p, idle);
    assert at - last == idle;
    EarnedNonneg(p, idle);
    hide Earned;
    var kept, fresh' := PgTake(p, Some(row), at), PgTake(p, None, at);
    var rest := [];
    assert fresh' == (Bucket(p.Capacity() - 1.0, at), Verdict(true, 0.0));
    if x >= 1.0 {
      var n := EnoughChecks(p, x - 1.0);
      rest := DrainApart(p, None, Some(ttl), x - 1.0, p.Capacity() - 1.0, at, n);
      assert kept.0 == Bucket(x - 1.0, at);
    } else {
      assert !kept.1.allowed;
    }
    var tail := [Check(at)] + rest;
    evs := [Sweep(at)] + tail;
    CheckFirst(at, rest, MICROSECOND, at, last + MICROSECOND);
    SweepFirst(at, tail, MICROSECOND, last, last + MICROSECOND);
    assert RowAfter(p, Some(ttl), Some(row), Sweep(at)) == None && RowAfter(p, None, Some(row), Sweep(at)) == Some(row);
    hide PgTake, Legal, Answers;
    AnswersCons(p, Some(ttl), Some(row), Sweep(at), tail);
    AnswersCons(p, None, Some(row), Sweep(at), tail);
    AnswersCons(p, Some(ttl), None, Check(at), rest);
    AnswersCons(p, None, Some(row), Check(at), rest);
    ConsDiffers(kept.1, Answers(p, None, Some(kept.0), rest), fresh'.1, Answers(p, Some(ttl), Some(fresh'.0), rest));
    assert [] + Answers(p, None, Some(row), tail) == Answers(p, None, Some(row), tail);
    assert [] + Answers(p, Some(ttl), None, tail) == Answers(p, Some(ttl), None, tail);
  }

  /** The instant at which a check finds exactly one token. */
  lemma WaitForOne(p: Policy, x: real) returns (idle: real)
    requires p.perMinute > 0 && x + Earned(p, MICROSECOND) < 1.0
    ensures idle > MICROSECOND && x + Earned(p, idle) == 1.0
  {
    idle := (1.0 - x) / p.Rate();
    assert idle * p.Rate() == 1.0 - x;
    assert idle * p.Rate() > MICROSECOND * p.Rate();
  }

  /** From any row a legal run empties it, waits out the TTL and tells swept from kept. */
  lemma {:induction false} EveryRowTells(p: Policy, ttl: real, x: real, last: real, n: nat) returns (evs: seq<Event>)
    requires p.perMinute > 0 && Earned(p, MICROSECOND) < 1.0 && Earned(p, ttl) < p.Capacity() && ttl >= 0.0
    requires 0.0 <= x <= p.Capacity() && x <= Drained(p, n)
    ensures Legal(evs, MICROSECOND, last, last + MICROSECOND)
    ensures Answers(p, Some(ttl), Some(Bucket(x, last)), evs) != Answers(p, None, Some(Bucket(x, last)), evs)
    decreases n
  {
    DrainedStart(p, n);
    if x == 0.0 {
      evs := EmptyRowTells(p, ttl, last);
    } else {
      var idle := MICROSECOND;
      if x + Earned(p, MICROSECOND) < 1.0 { idle := WaitForOne(p, x); }
      var at := last + idle;
      assert at - last == idle;
      DrainedNext(p, n);
      DrainedNonneg(p, n - 1);
      EarnedNonneg(p, MICROSECOND);
      hide Earned, Drained;
      var row := Some(Bucket(x, last));
      var next := PgTake(p, row, at);
      assert next.1 == Verdict(true, 0.0) && next.0.lastRefill == at;
      var rest := EveryRowTells(p, ttl, next.0.tokens, at, n - 1);
      hide PgTake, Legal, Answers;
      evs := [Check(at)] + rest;
      CheckFirst(at, rest, MICROSECOND, last, last + MICROSECOND);
      AnswersCons(p, Some(ttl), row, Check(at), rest);
      AnswersCons(p, None, row, Check(at), rest);
      ConsDiffers(next.1, Answers(p, Some(ttl), Some(next.0), rest), next.1, Answers(p, None, Some(next.0), rest));
    }
  }

  /** A run from the empty table whose first check is followed by `rest`. */
  lemma StartWith(p: Policy, ttl: real, rest: seq<Event>, gap: real)
    requires p.perMinute > 0 && gap >= 0.0 && Legal(rest, gap, 0.0, gap)
    requires var row := Some(Bucket(p.Capacity() - 1.0, 0.0)); Answers(p, Some(ttl), row, rest) != Answers(p, None, row, rest)
    ensures Legal([Check(0.0)] + rest, gap, 0.0, 0.0) && !SameAnswers(p, ttl, [Check(0.0)] + rest)
  {
    var next := PgTake(p, None, 0.0);
    assert next.0 == Bucket(p.Capacity() - 1.0, 0.0);
    hide PgTake, Legal, Answers;
    CheckFirst(0.0, rest, gap, 0.0, 0.0);
    AnswersCons(p, Some(ttl), None, Check(0.0), rest);
    AnswersCons(p, None, None, Check(0.0), rest);
    ConsDiffers(next.1, Answers(p, Some(ttl), Some(next.0), rest), next.1, Answers(p, None, Some(next.0), rest));
  }

  /** With checks a microsecond apart the Postgres sweep cannot be seen exactly when the rate is not positive, or earns a
      token every microsecond, or refills a whole bucket within the TTL. */
  lemma SpacedSweepInvisibleIff(p: Policy, ttl: real)
    requires ttl >= 0.0
    ensures (forall evs :: Legal(evs, MICROSECOND, 0.0, 0.0) ==> SameAnswers(p, ttl, evs))
       <==> p.perMinute <= 0 || Earned(p, MICROSECOND) >= 1.0 || Earned(p, ttl) >= p.Capacity()
  {
    if p.perMinute <= 0 || Earned(p, MICROSECOND) >= 1.0 || Earned(p, ttl) >= p.Capacity() {
      forall evs | Legal(evs, MICROSECOND, 0.0, 0.0) ensures SameAnswers(p, ttl, evs) {
        if p.perMinute <= 0 {
          DeniedAlike(p, Some(ttl), None, None, None, evs);
        } else if Earned(p, MICROSECOND) >= 1.0 {
          AdmittedAlike(p, Some(ttl), None, None, None, evs, 0.0, 0.0);
        } else {
          AgreeRun(p, ttl, None, None, evs, 0.0, 0.0);
        }
      }
    } else {
      hide Earned, Drained, Legal, Answers, SameAnswers;
      var n := EnoughChecks(p, p.Capacity() - 1.0);
      var rest := EveryRowTells(p, ttl, p.Capacity() - 1.0, 0.0, n);
      StartWith(p, ttl, rest, MICROSECOND);
    }
  }

  // ---------------------------------------------------------------- checks at one instant

  /** A burst at one instant, then a sweep and a check a second later than the TTL. */
  lemma {:induction false} DeepRowTells(p: Policy, ttl: real, k: nat, m: nat) returns (evs: seq<Event>)
    requires p.perMinute > 0 && ttl >= 0.0 && RefillLoss(p, k + m) > Earned(p, ttl + 1.0)
    ensures Legal(evs, 0.0, 0.0, 0.0)
    ensures var row := Some(Bucket(-RefillLoss(p, k), MICROSECOND)); Answers(p, Some(ttl), row, evs) != Answers(p, None, row, evs)
    decreases m
  {
    var row := Bucket(-RefillLoss(p, k), MICROSECOND);
    if m == 0 {
      var at := MICROSECOND + ttl + 1.0;
      assert at - MICROSECOND == ttl + 1.0;
      hide Earned, RefillLoss;
      var kept, fresh' := PgTake(p, Some(row), at), PgTake(p, None, at);
      assert !kept.1.allowed && fresh'.1.allowed;
      evs := [Sweep(at)] + ([Check(at)] + []);
      CheckFirst(at, [], 0.0, at, 0.0);
      SweepFirst(at, [Check(at)] + [], 0.0, 0.0, 0.0);
      AnswersCons(p, Some(ttl), Some(row), Sweep(at), [Check(at)] + []);
      AnswersCons(p, None, Some(row), Sweep(at), [Check(at)] + []);
      AnswersCons(p, Some(ttl), None, Check(at), []);
      AnswersCons(p, None, Some(row), Check(at), []);
      ConsDiffers(kept.1, Answers(p, None, Some(kept.0), []), fresh'.1, Answers(p, Some(ttl), Some(fresh'.0), []));
      var tail := [Check(at)] + [];
      assert [] + Answers(p, None, Some(row), tail) == Answers(p, None, Some(row), tail);
      assert [] + Answers(p, Some(ttl), None, tail) == Answers(p, Some(ttl), None, tail);
    } else {
      var next := PgTake(p, Some(row), 0.0);
      assert 0.0 - MICROSECOND == -MICROSECOND;
      EarnedOpposite(p, MICROSECOND);
      RefillLossNext(p, k);
      RefillLossPositive(p, k + 1);
      hide Earned, RefillLoss;
      assert next.0 == Bucket(-RefillLoss(p, k + 1), MICROSECOND);
      var rest := DeepRowTells(p, ttl, k + 1, m - 1);
      evs := [Check(0.0)] + rest;
      hide PgTake, Legal, Answers;
      CheckFirst(0.0, rest, 0.0, 0.0, 0.0);
      AnswersCons(p, Some(ttl), Some(row), Check(0.0), rest);
      AnswersCons(p, None, Some(row), Check(0.0), rest);
      ConsDiffers(next.1, Answers(p, Some(ttl), Some(next.0), rest), next.1, Answers(p, None, Some(next.0), rest));
    }
  }

  lemma {:induction false} BurstTells(p: Policy, ttl: real, tokens: nat) returns (evs: seq<Event>)
    requires p.perMinute > 0 && ttl >= 0.0 && tokens <= p.CapacityInt()
    ensures Legal(evs, 0.0, 0.0, 0.0)
    ensures var row := Some(Bucket(tokens as real, 0.0)); Answers(p, Some(ttl), row, evs) != Answers(p, None, row, evs)
    decreases tokens
  {
    var row := Bucket(tokens as real, 0.0);
    var next := PgTake(p, Some(row), 0.0);
    EarnedSplit(p, 0.0, 0.0);
    var rest;
    if tokens > 0 {
      hide Earned;
      assert next.0 == Bucket((tokens - 1) as real, 0.0);
      rest := BurstTells(p, ttl, tokens - 1);
    } else {
      NoLoss(p);
      var m := ManyDenials(p, ttl);
      hide Earned, RefillLoss;
      assert next.0 == Bucket(-RefillLoss(p, 0), MICROSECOND);
      rest := DeepRowTells(p, ttl, 0, m);
    }
    evs := [Check(0.0)] + rest;
    hide PgTake, Legal, Answers;
    CheckFirst(0.0, rest, 0.0, 0.0, 0.0);
    AnswersCons(p, Some(ttl), Some(row), Check(0.0), rest);
    AnswersCons(p, None, Some(row), Check(0.0), rest);
    ConsDiffers(next.1, Answers(p, Some(ttl), Some(next.0), rest), next.1, Answers(p, None, Some(next.0), rest));
  }

  lemma ManyDenials(p: Policy, ttl: real) returns (m: nat)
    requires p.perMinute > 0 && ttl >= 0.0
    ensures RefillLoss(p, m) > Earned(p, ttl + 1.0)
  {
    m := ((ttl + 1.0) * 1000000.0).Floor + 1;
    LossIs(m as real, MICROSECOND, ttl + 1.0, p.Rate());
  }

  lemma LossIs(m: real, u: real, t: real, r: real)
    requires m * u > t && r > 0.0
    ensures m * (u * r) > t * r
  {
    assert (m * u - t) * r > 0.0;
    assert (m * u) * r == m * (u * r);
  }

  /** On arbitrary time-ordered runs no TTL hides the Postgres sweep, unless the rate is not positive: enough denials at
      one instant leave a row that no TTL refills. */
  lemma SweepInvisibleIff(p: Policy, ttl: real)
    requires ttl >= 0.0
    ensures (forall evs :: Legal(evs, 0.0, 0.0, 0.0) ==> SameAnswers(p, ttl, evs)) <==> p.perMinute <= 0
  {
    if p.perMinute <= 0 {
      forall evs | Legal(evs, 0.0, 0.0, 0.0) ensures SameAnswers(p, ttl, evs) {
        DeniedAlike(p, Some(ttl), None, None, None, evs);
      }
    } else {
      hide Legal, Answers, SameAnswers;
      var rest := BurstTells(p, ttl, p.CapacityInt() - 1);
      StartWith(p, ttl, rest, 0.0);
    }
  }
}
