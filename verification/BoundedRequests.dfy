/** The mutable `CostGuard` of benchmarks/cache.py and the completion routines of benchmarks/requests.py that share it.
    While a routine waits for the provider, other graders may do anything to the guard: `others(i)` is the state they
    leave it in before the i-th attempt is answered. */
module BoundedRequests {
  import opened Common
  import opened SpendControl
  import opened TokenWindow

  class CostGuard {
    const maxCost: Option<real>
    var total: real
    var reserved: real
    var calls: nat
    var cached: nat
    var uncertain: nat
    var refused: nat
    var freeUncertain: nat
    var cachedCost: real

    ghost function State(): Guard
      reads this
    {
      Guard(maxCost, total, reserved, calls, cached, uncertain, refused, freeUncertain, cachedCost)
    }

    constructor (maxCost: Option<real>)
      requires maxCost.Some? ==> maxCost.value >= 0.0
      ensures State() == NewGuard(maxCost)
    {
      this.maxCost := maxCost;
      total, reserved, cachedCost := 0.0, 0.0, 0.0;
      calls, cached, uncertain, refused, freeUncertain := 0, 0, 0, 0, 0;
    }

    method ReserveCall(rates: Option<Rates>, inputUpper: int, outputLimit: int) returns (r: Result<real>)
      modifies `reserved
      ensures inputUpper < 0 || outputLimit < 0 || rates.None? ==> r == ValueError && State() == old(State())
      ensures !(inputUpper < 0 || outputLimit < 0 || rates.None?) ==>
                (State(), r) == Reserve(old(State()), rates.value.Cost(inputUpper, outputLimit))
      ensures r.Ok? ==>
                && Priced(rates.value, inputUpper, outputLimit, r.value) && reserved == old(reserved) + r.value
                && uncertain == 0 && (maxCost.Some? ==> total + reserved <= maxCost.value)
      ensures r.RuntimeError? ==>
                && reserved == old(reserved)
                && (uncertain > 0 || exists usd :: Priced(rates.value, inputUpper, outputLimit, usd) && maxCost.Some?
                                                   && total + reserved + usd > maxCost.value)
    {
      hide Rates.Cost;
      if rates.Some? { CostIsPriced(rates.value, inputUpper, outputLimit); }
      if inputUpper < 0 || outputLimit < 0 { return ValueError; }
      if rates.None? { return ValueError; }
      var upper := rates.value.Cost(inputUpper, outputLimit);
      if uncertain > 0 { return RuntimeError; }
      if maxCost.Some? {
        if total + reserved + upper > maxCost.value { return RuntimeError; }
      }
      reserved := reserved + upper;
      r := Ok(upper);
    }

    method RecordCall(cost: real, isCached: bool) returns (r: Result<()>)
      modifies `calls, `cached, `cachedCost, `total
      ensures (State(), r) == Record(old(State()), cost, isCached)
      ensures r == (if cost < 0.0 then ValueError else Ok(())) && (cost < 0.0 ==> State() == old(State()))
      ensures cost >= 0.0 ==>
                && calls == old(calls) + 1 && cached == old(cached) + (if isCached then 1 else 0)
                && cachedCost == old(cachedCost) + (if isCached then cost else 0.0)
                && total == old(total) + (if isCached then 0.0 else cost)
    {
      if cost < 0.0 { return ValueError; }
      calls := calls + 1;
      if isCached {
        cached := cached + 1;
        cachedCost := cachedCost + cost;
      } else {
        total := total + cost;
      }
      r := Ok(());
    }

    method SettleCall(reservation: real, cost: real) returns (r: Result<()>)
      modifies this
      ensures (State(), r) == Settle(old(State()), reservation, cost)
      ensures r.Ok? <==> 0.0 <= cost <= reservation + 0.000000000001
      ensures !r.Ok? ==> r == ValueError && State() == old(State())
      ensures r.Ok? ==>
                && total == old(total) + cost && calls == old(calls) + 1
                && reserved == (if old(reserved) >= reservation then old(reserved) - reservation else 0.0)
                && cached == old(cached) && cachedCost == old(cachedCost) && uncertain == old(uncertain)
                && refused == old(refused) && freeUncertain == old(freeUncertain)
    {
      if cost < 0.0 || cost > reservation + TOLERANCE { return ValueError; }
      reserved := Max0(reserved - reservation);
      r := RecordCall(cost, false);
    }

    method ReleaseCall(reservation: real)
      modifies `reserved, `refused
      ensures State() == Release(old(State()), reservation)
      ensures refused == old(refused) + 1
      ensures reserved == if old(reserved) >= reservation then old(reserved) - reservation else 0.0
    {
      reserved := Max0(reserved - reservation);
      refused := refused + 1;
    }

    method MarkUncertainCall(reservation: Option<real>)
      modifies `uncertain, `freeUncertain
      ensures State() == MarkUncertain(old(State()), reservation)
      ensures uncertain == old(uncertain) + (if reservation == Some(0.0) then 0 else 1)
      ensures freeUncertain == old(freeUncertain) + (if reservation == Some(0.0) then 1 else 0)
    {
      if reservation.Some? {
        if reservation.value == 0.0 {
          freeUncertain := freeUncertain + 1;
          return;
        }
      }
      uncertain := uncertain + 1;
    }

    /** What the other graders do to the guard meanwhile: anything. */
    method Interleave(to: Guard)
      modifies this
      ensures State() == to.(maxCost := maxCost)
    {
      total, reserved, calls, cached := to.total, to.reserved, to.calls, to.cached;
      uncertain, refused, freeUncertain, cachedCost := to.uncertain, to.refused, to.freeUncertain, to.cachedCost;
    }
  }

  /** What one dispatched attempt brings back: a parsed reply with its reported usage (`None` when it is missing or not
      a pair of non-negative integers), an HTTP error status, or no answer at all. */
  datatype Attempt = Reply(usage: Option<(nat, nat)>) | HttpError(status: int) | Dropped

  predicate Retryable(status: int) { status == 429 || status == 500 || status == 503 }

  /** How a call leaves its reservation. */
  datatype Ending = NotReserved | SettledAt(cost: real) | Refused | Uncertain | Stranded

  predicate InBounds(usage: (int, int), inputUpper: int, outputLimit: int) {
    0 <= usage.0 <= inputUpper && 0 <= usage.1 <= outputLimit
  }

  /** Usage within the declared bounds never costs more than the reservation. */
  lemma CostWithinReservation(rates: Rates, usage: (int, int), inputUpper: int, outputLimit: int)
    requires rates.Valid() && InBounds(usage, inputUpper, outputLimit)
    ensures 0.0 <= rates.Cost(usage.0, usage.1) <= rates.Cost(inputUpper, outputLimit)
  {
    Scale(usage.0, inputUpper, rates.input);
    Scale(usage.1, outputLimit, rates.output);
  }

  lemma Scale(a: int, b: int, r: real)
    requires 0 <= a <= b && r >= 0.0
    ensures 0.0 <= a as real * r <= b as real * r
  {
    assert (b as real - a as real) * r >= 0.0;
  }

  // ---------------------------------------------------------------- how a granted call ends

  /** One call of a completion routine, with what the provider would answer to each of its attempts. `windowSetting` is
      false when reading the token-window setting raises, `requestBuilt` when building the request does. */
  datatype Request =
    | Gemini(rates: Option<Rates>, inputUpper: nat, outputLimit: nat, httpUrl: bool, windowSetting: bool, attempts: nat,
             attempt: nat -> Attempt)
    | Single(rates: Option<Rates>, inputUpper: nat, outputLimit: nat, requestBuilt: bool, reply: Attempt)
  {
    ghost predicate Valid() { rates.Some? ==> rates.value.Valid() }

    /** Raises before it asks the guard for money. */
    predicate Hopeless() { rates.None? || (Gemini? && !httpUrl) }

    /** The reservation it asks for. */
    function Amount(): real { if rates.Some? then rates.value.Cost(inputUpper, outputLimit) else 0.0 }

    /** Usage that is complete and within the declared bounds is settled, any other reply stays uncertain. */
    function ReplyEnding(usage: Option<(nat, nat)>): Ending {
      if rates.Some? && usage.Some? && InBounds(usage.value, inputUpper, outputLimit)
      then SettledAt(rates.value.Cost(usage.value.0, usage.value.1)) else Uncertain
    }

    /** What the k-th attempt decides: `None` to try again. Only an empty retry budget gets past the last attempt. */
    function Decides(k: nat): Option<Ending> {
      if Single? then Some(if requestBuilt && reply.Reply? then ReplyEnding(reply.usage) else Uncertain)
      else if !windowSetting then Some(Stranded)
      else if k >= attempts then Some(Uncertain)
      else match attempt(k)
        case Reply(usage) => Some(ReplyEnding(usage))
        case HttpError(status) => if Retryable(status) && k < attempts - 1 then None else Some(Refused)
        case Dropped => Some(Uncertain)
    }

    /** How the call ends once it holds its reservation and has made `k` attempts. */
    function EndingFrom(k: nat): Ending
      decreases if Gemini? && k < attempts then attempts - k else 0
    {
      var d := Decides(k);
      if d.Some? then d.value else EndingFrom(k + 1)
    }
  }

  /** A settled call ends at a cost within its reservation, so the guard accepts the settlement. */
  lemma {:induction false} SettledWithinAmount(q: Request, k: nat)
    requires q.Valid() && q.Decides(k).Some? && q.Decides(k).value.SettledAt?
    ensures 0.0 <= q.Decides(k).value.cost <= q.Amount()
  {
    hide Rates.Cost;
    var usage := if q.Single? then q.reply.usage.value else q.attempt(k).usage.value;
    CostWithinReservation(q.rates.value, usage, q.inputUpper, q.outputLimit);
  }

  /** The one guard call that reports an ending, on whatever state the guard is in by then. */
  function Finish(g: Guard, amount: real, e: Ending): Guard {
    match e
    case NotReserved => g
    case SettledAt(cost) => Settle(g, amount, cost).0
    case Refused => Release(g, amount)
    case Uncertain => MarkUncertain(g, Some(amount))
    case Stranded => g
  }

  // ---------------------------------------------------------------- the routines

  /** The reply is checked against the bounds and settled; every failure leaves the charge uncertain. */
  method SettleReply(guard: CostGuard, rates: Rates, reply: Attempt, inputUpper: int, outputLimit: int) returns (e: Ending)
    requires rates.Valid() && inputUpper >= 0 && outputLimit >= 0
    modifies guard
    ensures guard.State() == Finish(old(guard.State()), rates.Cost(inputUpper, outputLimit), e)
    ensures e == (if reply.Reply? && reply.usage.Some? && InBounds(reply.usage.value, inputUpper, outputLimit)
                  then SettledAt(rates.Cost(reply.usage.value.0, reply.usage.value.1)) else Uncertain)
    ensures e.SettledAt? ==>
              && 0.0 <= e.cost <= rates.Cost(inputUpper, outputLimit)
              && Settle(old(guard.State()), rates.Cost(inputUpper, outputLimit), e.cost).1.Ok?
    ensures e.SettledAt? <==>
              reply.Reply? && reply.usage.Some? && reply.usage.value.0 <= inputUpper && reply.usage.value.1 <= outputLimit
    ensures e.SettledAt? ==> Priced(rates, reply.usage.value.0, reply.usage.value.1, e.cost)
    ensures !e.SettledAt? ==> e.Uncertain?
  {
    hide Rates.Cost, Priced;
    var reservation := rates.Cost(inputUpper, outputLimit);
    if reply.Reply? && reply.usage.Some? && InBounds(reply.usage.value, inputUpper, outputLimit) {
      var cost := rates.Cost(reply.usage.value.0, reply.usage.value.1);
      CostWithinReservation(rates, reply.usage.value, inputUpper, outputLimit);
      CostIsPriced(rates, reply.usage.value.0, reply.usage.value.1);
      var r := guard.SettleCall(reservation, cost);
      assert r.Ok?;
      e := SettledAt(cost);
    } else {
      guard.MarkUncertainCall(Some(reservation));
      e := Uncertain;
    }
  }

  /** The environment of the token window: how long the routine pauses before its i-th attempt, by how much each of its
      sleeps overshoots, and which passes others take meanwhile. */
  datatype Pace = Pace(pause: nat -> real, overshoot: nat -> nat -> real, rivals: nat -> seq<seq<Rival>>) {
    ghost predicate Valid() {
      && (forall i :: pause(i) >= 0.0) && (forall i, k :: overshoot(i)(k) >= 0.0)
      && (forall i, j, k :: 0 <= j < |rivals(i)| && 0 <= k < |rivals(i)[j]| ==> rivals(i)[j][k].delay >= 0.0)
    }
  }

  /** What an attempt leaves in the token window: the reported input, nothing if it was refused, else the estimate. */
  function WindowCharge(a: Attempt, estimate: nat): nat {
    match a
    case Reply(Some(usage)) => usage.0
    case HttpError(_) => 0
    case _ => estimate
  }

  /** One entry per attempt made, each left at what the attempt used. */
  ghost predicate Charged(mine: seq<Entry>, attempt: nat -> Attempt, estimate: nat)
    reads mine
  {
    Distinct(mine) && forall j :: 0 <= j < |mine| ==> mine[j].tokens == WindowCharge(attempt(j), estimate) as real
  }

  /** The window between attempts: `mine` are the routine's own entries, `before` what had been granted when it began. */
  ghost predicate Paced(window: InputTokenWindow, now: real, mine: seq<Entry>, before: seq<Entry>, attempt: nat -> Attempt,
                        estimate: nat)
    reads window, window.entries, mine
  {
    && window.Valid() && window.clock <= now && before <= window.granted
    && (forall x :: x in mine ==> x in window.granted) && Charged(mine, attempt, estimate)
  }

  lemma ChargedNext(mine: seq<Entry>, entry: Entry, attempt: nat -> Attempt, estimate: nat)
    requires Charged(mine, attempt, estimate) && entry !in mine
    requires entry.tokens == WindowCharge(attempt(|mine|), estimate) as real
    ensures Charged(mine + [entry], attempt, estimate)
  {
  }

  /** What the window is told about an attempt: nothing used when it was refused, the reported input when there is one;
      otherwise the estimate stands. */
  method Report(window: InputTokenWindow, entry: Entry, a: Attempt, estimate: nat)
    requires window.Valid() && entry.tokens == estimate as real
    modifies entry
    ensures window.Valid() && entry.tokens == WindowCharge(a, estimate) as real
    ensures window.granted == old(window.granted) && window.clock == old(window.clock)
    ensures old(window.Fits(window.entries)) && WindowCharge(a, estimate) <= estimate ==> window.Fits(window.entries)
  {
    hide InputTokenWindow.Valid, InputTokenWindow.Fits;
    match a {
      case HttpError(_) => window.Settle(entry, 0);
      case Reply(Some(usage)) => window.Settle(entry, usage.0);
      case _ =>
    }
  }

  /** One attempt as the window sees it: wait to be admitted, dispatch, and leave what was used. */
  method Dispatch(window: InputTokenWindow, now: real, estimate: nat, pace: Pace, ghost mine: seq<Entry>,
                  ghost before: seq<Entry>, attempt: nat -> Attempt, i: nat)
      returns (later: real, ghost entry: Entry)
    requires pace.Valid() && |mine| == i && Paced(window, now, mine, before, attempt, estimate)
    modifies window
    ensures fresh(entry) && Paced(window, later, mine + [entry], before, attempt, estimate)
    ensures old(window.Fits(window.entries)) && WindowCharge(attempt(i), estimate) <= estimate ==> window.Fits(window.entries)
  {
    hide InputTokenWindow.Valid, InputTokenWindow.Fits, Charged, WindowCharge;
    var e, _ := window.Acquire(now + pace.pause(i), estimate, pace.overshoot(i), pace.rivals(i));
    entry, later := e, e.at;
    assert window.granted[|window.granted| - 1] == e;
    Report(window, e, attempt(i), estimate);
    ChargedNext(mine, e, attempt, estimate);
  }

  /** What the i-th answer makes the routine tell the guard, if it does not try again. */
  method Answer(guard: CostGuard, q: Request, i: nat) returns (d: Option<Ending>)
    requires q.Gemini? && q.rates.Some? && q.Valid() && q.windowSetting && i < q.attempts
    modifies guard
    ensures d == q.Decides(i)
    ensures guard.State() == if d.Some? then Finish(old(guard.State()), q.Amount(), d.value) else old(guard.State())
    ensures d.Some? && d.value.SettledAt? ==> Settle(old(guard.State()), q.Amount(), d.value.cost).1.Ok?
  {
    hide Rates.Cost, Settle, Release, MarkUncertain;
    var reservation := q.rates.value.Cost(q.inputUpper, q.outputLimit);
    match q.attempt(i) {
      case HttpError(status) =>
        if Retryable(status) && i < q.attempts - 1 { return None; }
        guard.ReleaseCall(reservation);
        d := Some(Refused);
      case Dropped =>
        guard.MarkUncertainCall(Some(reservation));
        d := Some(Uncertain);
      case Reply(_) =>
        var e := SettleReply(guard, q.rates.value, q.attempt(i), q.inputUpper, q.outputLimit);
        d := Some(e);
    }
  }

  lemma TriedAgain(q: Request, i: nat)
    requires q.Gemini? && q.Decides(i).None?
    ensures i < q.attempts - 1 && q.attempt(i).HttpError? && Retryable(q.attempt(i).status)
    ensures q.EndingFrom(i) == q.EndingFrom(i + 1) && forall estimate :: WindowCharge(q.attempt(i), estimate) == 0
  {
  }

  lemma EndsHere(q: Request, i: nat)
    requires q.Decides(i).Some?
    ensures q.EndingFrom(i) == q.Decides(i).value
  {
  }

  /** `_gemini_complete` from its first attempt on: retries only on 429, 500 and 503. The guard is told once how it ended,
      whatever others did to it in between (`seen` is the state they left). Each attempt first waits for the token window,
      if there is one, and then leaves there what it used; `mine` are the entries it was granted. The allowance survives
      unless the provider reports more input than was estimated. */
  method GeminiAttempts(guard: CostGuard, q: Request, others: nat -> Guard, window: InputTokenWindow?, estimate: nat,
                        start: real, pace: Pace, ghost before: seq<Entry>)
      returns (e: Ending, ghost last: nat, ghost seen: Guard, ghost mine: seq<Entry>, now: real)
    requires q.Gemini? && q.rates.Some? && q.Valid() && q.windowSetting
    requires pace.Valid() && (window != null ==> Paced(window, start, [], before, q.attempt, estimate))
    modifies guard, window
    ensures e == q.EndingFrom(0) && guard.State() == Finish(seen, q.Amount(), e)
    ensures e.SettledAt? ==> Settle(seen, q.Amount(), e.cost).1.Ok?
    ensures q.attempts > 0 ==> last < q.attempts && seen == others(last).(maxCost := guard.maxCost) && q.Decides(last) == Some(e)
    ensures q.attempts > 0 ==> forall i :: 0 <= i < last ==> q.Decides(i).None?
    ensures window != null ==>
              && fresh(mine) && Paced(window, now, mine, before, q.attempt, estimate)
              && |mine| == (if q.attempts == 0 then 0 else last + 1)
              && (old(window.Fits(window.entries)) && (mine == [] || WindowCharge(q.attempt(last), estimate) <= estimate) ==>
                    window.Fits(window.entries))
  {
    hide Finish, Settle, Paced, WindowCharge, InputTokenWindow.Fits, Request.Decides, Request.EndingFrom;
    last, seen, mine, now := 0, guard.State(), [], start;
    for i := 0 to q.attempts
      invariant i == 0 || i < q.attempts
      invariant q.EndingFrom(i) == q.EndingFrom(0) && forall j :: 0 <= j < i ==> q.Decides(j).None?
      invariant window != null ==> fresh(mine) && |mine| == i && Paced(window, now, mine, before, q.attempt, estimate)
      invariant window != null && old(window.Fits(window.entries)) ==> window.Fits(window.entries)
    {
      if window != null {
        ghost var entry;
        now, entry := Dispatch(window, now, estimate, pace, mine, before, q.attempt, i);
        mine := mine + [entry];
      }
      guard.Interleave(others(i));
      last, seen := i, guard.State();
      var d := Answer(guard, q, i);
      if d.Some? {
        EndsHere(q, i);
        return d.value, last, seen, mine, now;
      }
      TriedAgain(q, i);
    }
    // Only an empty retry budget leaves the loop without an answer.
    seen := guard.State();
    guard.MarkUncertainCall(Some(q.rates.value.Cost(q.inputUpper, q.outputLimit)));
    e := Uncertain;
    NoAttempts(q, seen);
  }

  lemma NoAttempts(q: Request, g: Guard)
    requires q.Gemini? && q.windowSetting && q.attempts == 0 && q.rates.Some?
    ensures q.EndingFrom(0) == Uncertain
    ensures Finish(g, q.Amount(), Uncertain) == MarkUncertain(g, Some(q.rates.value.Cost(q.inputUpper, q.outputLimit)))
  {
  }

  /** `_gemini_complete`: asks the guard once for the reservation, is stranded with it when the window setting cannot be
      read, and otherwise tells the guard once how it ended. */
  method GeminiComplete(guard: CostGuard, rates: Option<Rates>, httpUrl: bool, windowSetting: bool, inputUpper: nat,
                        outputLimit: nat, attempts: nat, attempt: nat -> Attempt, others: nat -> Guard,
                        window: InputTokenWindow?, estimate: nat, start: real, pace: Pace)
      returns (e: Ending, ghost last: nat, ghost seen: Guard, ghost mine: seq<Entry>, now: real)
    requires rates.Some? ==> rates.value.Valid()
    requires pace.Valid() && (window != null ==> window.Valid() && window.clock <= start)
    modifies guard, window
    ensures var q := Gemini(rates, inputUpper, outputLimit, httpUrl, windowSetting, attempts, attempt);
            && (q.Hopeless() <==> !httpUrl || rates.None?)
            && (e.NotReserved? <==> !httpUrl || rates.None? || !Reserve(old(guard.State()), q.Amount()).1.Ok?)
            && (rates.Some? ==> Priced(rates.value, inputUpper, outputLimit, q.Amount()))
            && (!e.NotReserved? ==> e == q.EndingFrom(0))
            && (e.NotReserved? ==> guard.State() == old(guard.State()))
            && (e.Stranded? ==> seen == Reserve(old(guard.State()), q.Amount()).0)
            && (!e.NotReserved? && !e.Stranded? && attempts > 0 ==> seen == others(last).(maxCost := guard.maxCost))
            && (!e.NotReserved? ==> guard.State() == Finish(seen, q.Amount(), e))
            && (e.SettledAt? ==> Settle(seen, q.Amount(), e.cost).1.Ok?)
    ensures !e.NotReserved? ==> (e.Stranded? <==> !windowSetting)
    ensures e.SettledAt? || e.Refused? || (e.Uncertain? && attempts > 0) ==>
              last < attempts && forall i :: 0 <= i < last ==> attempt(i).HttpError? && attempt(i).status in {429, 500, 503}
    ensures e.Refused? ==> attempt(last).HttpError? && (attempt(last).status in {429, 500, 503} ==> last == attempts - 1)
    ensures e.SettledAt? ==>
              && attempt(last).Reply? && attempt(last).usage.Some?
              && attempt(last).usage.value.0 <= inputUpper && attempt(last).usage.value.1 <= outputLimit
              && e.cost == rates.value.Cost(attempt(last).usage.value.0, attempt(last).usage.value.1)
              && Priced(rates.value, attempt(last).usage.value.0, attempt(last).usage.value.1, e.cost)
              && 0.0 <= e.cost <= rates.value.Cost(inputUpper, outputLimit)
    ensures e.Uncertain? && attempts > 0 ==>
              || attempt(last).Dropped?
              || (attempt(last).Reply? && (attempt(last).usage.None? ||
                                           !(attempt(last).usage.value.0 <= inputUpper && attempt(last).usage.value.1 <= outputLimit)))
    ensures window != null ==>
              && fresh(mine) && Paced(window, now, mine, old(window.granted), attempt, estimate)
              && |mine| == (if e.NotReserved? || e.Stranded? || attempts == 0 then 0 else last + 1)
              && (old(window.Fits(window.entries)) && (mine == [] || WindowCharge(attempt(last), estimate) <= estimate) ==>
                    window.Fits(window.entries))
    ensures window != null && mine != [] ==>
              && (forall j :: 0 <= j < last ==> mine[j].tokens == 0.0)
              && mine[last].tokens == (if attempt(last).HttpError? then 0.0
                                       else if attempt(last).Reply? && attempt(last).usage.Some?
                                       then attempt(last).usage.value.0 as real else estimate as real)
  {
    hide Rates.Cost, Settle, Finish, InputTokenWindow.Valid, InputTokenWindow.Fits, Request.EndingFrom, WindowCharge, Priced;
    if rates.Some? { CostIsPriced(rates.value, inputUpper, outputLimit); }
    var q := Gemini(rates, inputUpper, outputLimit, httpUrl, windowSetting, attempts, attempt);
    last, seen, mine, now := 0, guard.State(), [], start;
    ghost var before := if window != null then window.granted else [];
    if !httpUrl { return NotReserved, last, seen, mine, now; }
    var r := guard.ReserveCall(rates, inputUpper, outputLimit);
    if !r.Ok? { return NotReserved, last, seen, mine, now; }
    seen := guard.State();
    if !windowSetting {
      StrandedHere(q, seen);
      return Stranded, last, seen, mine, now;
    }
    e, last, seen, mine, now := GeminiAttempts(guard, q, others, window, estimate, start, pace, before);
    HowItEnded(q, last, e);
    if window != null && mine != [] { WhatWasUsed(mine, attempt, estimate, last); }
  }

  lemma WhatWasUsed(mine: seq<Entry>, attempt: nat -> Attempt, estimate: nat, last: nat)
    requires |mine| == last + 1 && Charged(mine, attempt, estimate)
    requires forall i :: 0 <= i < last ==> attempt(i).HttpError?
    ensures forall j :: 0 <= j < last ==> mine[j].tokens == 0.0
    ensures mine[last].tokens == if attempt(last).HttpError? then 0.0
                                 else if attempt(last).Reply? && attempt(last).usage.Some?
                                 then attempt(last).usage.value.0 as real else estimate as real
  {
  }

  lemma StrandedHere(q: Request, g: Guard)
    requires q.Gemini? && !q.windowSetting
    ensures q.EndingFrom(0) == Stranded && Finish(g, q.Amount(), Stranded) == g
  {
  }

  /** The attempt that decided, read back from the ending. */
  lemma HowItEnded(q: Request, last: nat, e: Ending)
    requires q.Gemini? && q.rates.Some? && q.Valid() && q.windowSetting && e == q.EndingFrom(0)
    requires q.attempts > 0 ==> last < q.attempts && q.Decides(last) == Some(e) && forall i :: 0 <= i < last ==> q.Decides(i).None?
    ensures !e.NotReserved? && !e.Stranded? && (q.attempts == 0 ==> e == Uncertain)
    ensures q.attempts > 0 ==> forall i :: 0 <= i < last ==> q.attempt(i).HttpError? && q.attempt(i).status in {429, 500, 503}
    ensures e.Refused? ==> q.attempt(last).HttpError? && (q.attempt(last).status in {429, 500, 503} ==> last == q.attempts - 1)
    ensures e.SettledAt? ==>
              && q.attempt(last).Reply? && q.attempt(last).usage.Some?
              && q.attempt(last).usage.value.0 <= q.inputUpper && q.attempt(last).usage.value.1 <= q.outputLimit
              && e.cost == q.rates.value.Cost(q.attempt(last).usage.value.0, q.attempt(last).usage.value.1)
              && Priced(q.rates.value, q.attempt(last).usage.value.0, q.attempt(last).usage.value.1, e.cost)
              && 0.0 <= e.cost <= q.rates.value.Cost(q.inputUpper, q.outputLimit)
    ensures e.Uncertain? && q.attempts > 0 ==>
              || q.attempt(last).Dropped?
              || (q.attempt(last).Reply? && (q.attempt(last).usage.None? ||
                                             !(q.attempt(last).usage.value.0 <= q.inputUpper && q.attempt(last).usage.value.1 <= q.outputLimit)))
  {
    hide Rates.Cost, Priced;
    if q.attempts > 0 {
      forall i | 0 <= i < last ensures q.attempt(i).HttpError? && q.attempt(i).status in {429, 500, 503} { TriedAgain(q, i); }
      if e.SettledAt? {
        SettledWithinAmount(q, last);
        CostIsPriced(q.rates.value, q.attempt(last).usage.value.0, q.attempt(last).usage.value.1);
      }
    }
  }

  /** The single-attempt routine for the other HTTP providers: any failure, an HTTP error included, stays uncertain. */
  method SingleAttempt(guard: CostGuard, rates: Option<Rates>, requestBuilt: bool, inputUpper: nat, outputLimit: nat,
                       attempt: Attempt, others: Guard)
      returns (e: Ending)
    requires rates.Some? ==> rates.value.Valid()
    modifies guard
    ensures var q := Single(rates, inputUpper, outputLimit, requestBuilt, attempt);
            && (q.Hopeless() <==> rates.None?)
            && (e.NotReserved? <==> rates.None? || !Reserve(old(guard.State()), q.Amount()).1.Ok?)
            && (rates.Some? ==> Priced(rates.value, inputUpper, outputLimit, q.Amount()))
            && (!e.NotReserved? ==> e == q.EndingFrom(0))
            && (e.NotReserved? ==> guard.State() == old(guard.State()))
            && (!e.NotReserved? ==> guard.State() == Finish(others.(maxCost := guard.maxCost), q.Amount(), e))
            && (e.SettledAt? ==> Settle(others.(maxCost := guard.maxCost), q.Amount(), e.cost).1.Ok?)
    ensures e.NotReserved? || e.SettledAt? || e.Uncertain?
    ensures e.SettledAt? ==>
              && requestBuilt && attempt.Reply? && attempt.usage.Some? && attempt.usage.value.0 <= inputUpper && attempt.usage.value.1 <= outputLimit
              && 0.0 <= e.cost <= rates.value.Cost(inputUpper, outputLimit)
              && Priced(rates.value, attempt.usage.value.0, attempt.usage.value.1, e.cost)
    ensures e.Uncertain? ==>
              || !requestBuilt || !attempt.Reply? || attempt.usage.None?
              || !(attempt.usage.value.0 <= inputUpper && attempt.usage.value.1 <= outputLimit)
  {
    hide Rates.Cost, Settle, Release, MarkUncertain, Priced;
    if rates.Some? { CostIsPriced(rates.value, inputUpper, outputLimit); }
    var r := guard.ReserveCall(rates, inputUpper, outputLimit);
    if !r.Ok? { return NotReserved; }
    guard.Interleave(others);
    if !requestBuilt || !attempt.Reply? {
      guard.MarkUncertainCall(Some(r.value));
      return Uncertain;
    }
    e := SettleReply(guard, rates.value, attempt, inputUpper, outputLimit);
  }
}
