/** Spend control of the benchmarks: the reserve, settle, release and uncertain protocol of `CostGuard` in
    benchmarks/cache.py, over every interleaving of its callers. Costs are exact reals. */
module SpendControl {
  import opened Common

  datatype Result<+T> = Ok(value: T) | ValueError | RuntimeError

  /** Prices per million tokens; `get_price` rejects negative ones. */
  datatype Rates = Rates(input: real, output: real) {
    predicate Valid() { input >= 0.0 && output >= 0.0 }

    function Cost(inputTokens: int, outputTokens: int): real {
      (inputTokens as real * input + outputTokens as real * output) / 1000000.0
    }
  }

  /** The laws that determine the cost: a million input tokens cost the input price, a million output tokens the output
      price, and separate usages add up. */
  lemma CostLaws(r: Rates, a: int, b: int, c: int, d: int)
    ensures r.Cost(1000000, 0) == r.input && r.Cost(0, 1000000) == r.output
    ensures r.Cost(a + c, b + d) == r.Cost(a, b) + r.Cost(c, d)
  {
    Distribute(a as real, c as real, r.input);
    Distribute(b as real, d as real, r.output);
  }

  lemma Distribute(a: real, b: real, r: real)
    ensures (a + b) * r == a * r + b * r
  {
  }

  /** An amount in dollars for that many tokens, at prices per million. */
  ghost predicate Priced(r: Rates, inputTokens: int, outputTokens: int, usd: real) {
    usd * 1000000.0 == inputTokens as real * r.input + outputTokens as real * r.output
  }

  lemma CostIsPriced(r: Rates, inputTokens: int, outputTokens: int)
    ensures Priced(r, inputTokens, outputTokens, r.Cost(inputTokens, outputTokens))
  {
  }

  const TOLERANCE := 0.000000000001

  /** The fields of a `CostGuard`. */
  datatype Guard = Guard(maxCost: Option<real>, total: real, reserved: real, calls: nat, cached: nat,
                         uncertain: nat, refused: nat, freeUncertain: nat, cachedCost: real)

  function NewGuard(maxCost: Option<real>): Guard { Guard(maxCost, 0.0, 0.0, 0, 0, 0, 0, 0, 0.0) }

  function Max0(x: real): real { if x < 0.0 then 0.0 else x }

  function Reserve(g: Guard, upper: real): (Guard, Result<real>) {
    if g.uncertain > 0 then (g, RuntimeError)
    else if g.maxCost.Some? && g.total + g.reserved + upper > g.maxCost.value then (g, RuntimeError)
    else (g.(reserved := g.reserved + upper), Ok(upper))
  }

  function Record(g: Guard, cost: real, isCached: bool): (Guard, Result<()>) {
    if cost < 0.0 then (g, ValueError)
    else if isCached then (g.(calls := g.calls + 1, cached := g.cached + 1, cachedCost := g.cachedCost + cost), Ok(()))
    else (g.(calls := g.calls + 1, total := g.total + cost), Ok(()))
  }

  function Settle(g: Guard, reservation: real, cost: real): (Guard, Result<()>) {
    if cost < 0.0 || cost > reservation + TOLERANCE then (g, ValueError)
    else Record(g.(reserved := Max0(g.reserved - reservation)), cost, false)
  }

  function Release(g: Guard, reservation: real): Guard {
    g.(reserved := Max0(g.reserved - reservation), refused := g.refused + 1)
  }

  function MarkUncertain(g: Guard, reservation: Option<real>): Guard {
    if reservation == Some(0.0) then g.(freeUncertain := g.freeUncertain + 1)
    else g.(uncertain := g.uncertain + 1)
  }

  // ---------------------------------------------------------------- every interleaving

  /** Where a reservation stands. `Held` keeps its money reserved for ever. */
  datatype Phase = InFlight(amount: real) | Held(amount: real) | Settled(amount: real, cost: real) | Released(amount: real)

  /** One atomic guard step of some concurrent caller; callers are named by the index of their reservation. `Strand` is
      the caller that raises between reserving and its try block, and never touches the guard again. */
  datatype Step =
    | ReserveStep(upper: real)
    | SettleStep(who: nat, cost: real)
    | ReleaseStep(who: nat)
    | UncertainStep(who: nat)
    | StrandStep(who: nat)
    | RecordStep(cost: real, isCached: bool)

  datatype System = System(guard: Guard, calls: seq<Phase>)

  /** The steps the callers make: non-negative bounds, each outcome reported once for a reservation in flight, and
      costs recorded outside a reservation are cache hits or free local calls. */
  predicate Allowed(s: System, e: Step) {
    match e
    case ReserveStep(upper) => upper >= 0.0
    case RecordStep(cost, isCached) => cost >= 0.0 && (isCached || cost == 0.0)
    case SettleStep(who, _) => who < |s.calls| && s.calls[who].InFlight?
    case ReleaseStep(who) => who < |s.calls| && s.calls[who].InFlight?
    case UncertainStep(who) => who < |s.calls| && s.calls[who].InFlight?
    case StrandStep(who) => who < |s.calls| && s.calls[who].InFlight?
  }

  function Apply(s: System, e: Step): System
    requires Allowed(s, e)
  {
    match e
    case ReserveStep(upper) =>
      var r := Reserve(s.guard, upper);
      System(r.0, if r.1.Ok? then s.calls + [InFlight(upper)] else s.calls)
    case SettleStep(who, cost) =>
      var a := s.calls[who].amount;
      var r := Settle(s.guard, a, cost);
      System(r.0, if r.1.Ok? then s.calls[who := Settled(a, cost)] else s.calls)
    case ReleaseStep(who) =>
      System(Release(s.guard, s.calls[who].amount), s.calls[who := Released(s.calls[who].amount)])
    case UncertainStep(who) =>
      System(MarkUncertain(s.guard, Some(s.calls[who].amount)), s.calls[who := Held(s.calls[who].amount)])
    case StrandStep(who) => s.(calls := s.calls[who := Held(s.calls[who].amount)])
    case RecordStep(cost, isCached) => s.(guard := Record(s.guard, cost, isCached).0)
  }

  function Outstanding(p: Phase): real { if p.InFlight? || p.Held? then p.amount else 0.0 }

  function Spent(p: Phase): real { if p.Settled? then p.cost else 0.0 }

  /** How far a settled cost ran past its reservation. */
  function Overrun(p: Phase): real { if p.Settled? && p.cost > p.amount then p.cost - p.amount else 0.0 }

  function Each(f: Phase -> real, calls: seq<Phase>): (s: seq<real>)
    ensures |s| == |calls| && forall i :: 0 <= i < |s| ==> s[i] == f(calls[i])
  {
    seq(|calls|, i requires 0 <= i < |calls| => f(calls[i]))
  }

  function Total(f: Phase -> real, calls: seq<Phase>): real { Sum(Each(f, calls)) }

  lemma TotalUpdate(f: Phase -> real, calls: seq<Phase>, i: nat, p: Phase)
    requires i < |calls|
    ensures Total(f, calls[i := p]) == Total(f, calls) - f(calls[i]) + f(p)
  {
    SumUpdate(Each(f, calls), i, f(p));
    assert Each(f, calls[i := p]) == Each(f, calls)[i := f(p)];
  }

  lemma TotalAppend(f: Phase -> real, calls: seq<Phase>, p: Phase)
    ensures Total(f, calls + [p]) == Total(f, calls) + f(p)
  {
    SumAppend(Each(f, calls), f(p));
    assert Each(f, calls + [p]) == Each(f, calls) + [f(p)];
  }

  /** No entry exceeds a sum of non-negative ones: take it out and look at the rest. */
  lemma TotalCoversEach(f: Phase -> real, calls: seq<Phase>, i: nat)
    requires i < |calls| && forall j :: 0 <= j < |calls| ==> f(calls[j]) >= 0.0
    ensures Total(f, calls) >= f(calls[i])
  {
    var s := Each(f, calls);
    SumUpdate(s, i, 0.0);
    SumNonneg(s[i := 0.0]);
  }

  ghost predicate GoodPhase(p: Phase) {
    p.amount >= 0.0 && (p.Settled? ==> 0.0 <= p.cost <= p.amount + TOLERANCE)
  }

  /** What every reachable system satisfies. */
  ghost predicate Inv(s: System) {
    && (forall i :: 0 <= i < |s.calls| ==> GoodPhase(s.calls[i]))
    && s.guard.reserved == Total(Outstanding, s.calls)
    && s.guard.total == Total(Spent, s.calls)
    && (s.guard.maxCost.Some? ==>
          s.guard.total + s.guard.reserved <= s.guard.maxCost.value + Total(Overrun, s.calls))
  }

  lemma OutstandingCovers(s: System, who: nat)
    requires Inv(s) && who < |s.calls| && s.calls[who].InFlight?
    ensures s.guard.reserved >= s.calls[who].amount
  {
    TotalCoversEach(Outstanding, s.calls, who);
  }

  lemma ReplacePhase(s: System, who: nat, p: Phase)
    requires who < |s.calls|
    ensures Total(Outstanding, s.calls[who := p]) == Total(Outstanding, s.calls) - Outstanding(s.calls[who]) + Outstanding(p)
    ensures Total(Spent, s.calls[who := p]) == Total(Spent, s.calls) - Spent(s.calls[who]) + Spent(p)
    ensures Total(Overrun, s.calls[who := p]) == Total(Overrun, s.calls) - Overrun(s.calls[who]) + Overrun(p)
  {
    TotalUpdate(Outstanding, s.calls, who, p);
    TotalUpdate(Spent, s.calls, who, p);
    TotalUpdate(Overrun, s.calls, who, p);
  }

  lemma ReserveKeepsInv(s: System, upper: real)
    requires Inv(s) && upper >= 0.0
    ensures Inv(Apply(s, ReserveStep(upper)))
  {
    hide Total;
    TotalAppend(Outstanding, s.calls, InFlight(upper));
    TotalAppend(Spent, s.calls, InFlight(upper));
    TotalAppend(Overrun, s.calls, InFlight(upper));
    OverrunsNonneg(s.calls);
  }

  lemma SettleKeepsInv(s: System, who: nat, cost: real)
    requires Inv(s) && Allowed(s, SettleStep(who, cost))
    ensures Inv(Apply(s, SettleStep(who, cost)))
  {
    hide Total;
    OutstandingCovers(s, who);
    ReplacePhase(s, who, Settled(s.calls[who].amount, cost));
  }

  lemma ReleaseKeepsInv(s: System, who: nat)
    requires Inv(s) && Allowed(s, ReleaseStep(who))
    ensures Inv(Apply(s, ReleaseStep(who)))
  {
    hide Total;
    OutstandingCovers(s, who);
    ReplacePhase(s, who, Released(s.calls[who].amount));
  }

  lemma HoldKeepsInv(s: System, who: nat)
    requires Inv(s) && Allowed(s, UncertainStep(who))
    ensures Inv(Apply(s, UncertainStep(who))) && Inv(Apply(s, StrandStep(who)))
  {
    hide Total;
    ReplacePhase(s, who, Held(s.calls[who].amount));
  }

  lemma StepKeepsInv(s: System, e: Step)
    requires Inv(s) && Allowed(s, e)
    ensures Inv(Apply(s, e)) && Apply(s, e).guard.maxCost == s.guard.maxCost
  {
    hide Total, GoodPhase;
    match e {
      case ReserveStep(upper) => ReserveKeepsInv(s, upper);
      case SettleStep(who, cost) => SettleKeepsInv(s, who, cost);
      case ReleaseStep(who) => ReleaseKeepsInv(s, who);
      case UncertainStep(who) => HoldKeepsInv(s, who);
      case StrandStep(who) => HoldKeepsInv(s, who);
      case RecordStep(_, _) =>
    }
  }

  lemma OverrunsNonneg(calls: seq<Phase>)
    ensures Total(Overrun, calls) >= 0.0
  {
    SumNonneg(Each(Overrun, calls));
  }

  // ---------------------------------------------------------------- runs

  ghost predicate AllAllowed(s: System, es: seq<Step>)
    decreases |es|
  {
    es == [] || (Allowed(s, es[0]) && AllAllowed(Apply(s, es[0]), es[1..]))
  }

  ghost function ApplyAll(s: System, es: seq<Step>): System
    requires AllAllowed(s, es)
    decreases |es|
  {
    if es == [] then s else ApplyAll(Apply(s, es[0]), es[1..])
  }

  lemma {:induction false} RunKeepsInv(s: System, es: seq<Step>)
    requires Inv(s) && AllAllowed(s, es)
    ensures Inv(ApplyAll(s, es)) && ApplyAll(s, es).guard.maxCost == s.guard.maxCost
    decreases |es|
  {
    hide Inv, Allowed, Apply;
    if es != [] {
      StepKeepsInv(s, es[0]);
      RunKeepsInv(Apply(s, es[0]), es[1..]);
    }
  }

  lemma {:induction false} RunsCompose(s: System, a: seq<Step>, b: seq<Step>)
    requires AllAllowed(s, a) && AllAllowed(ApplyAll(s, a), b)
    ensures AllAllowed(s, a + b) && ApplyAll(s, a + b) == ApplyAll(ApplyAll(s, a), b)
    decreases |a|
  {
    hide Allowed, Apply;
    if a == [] {
      assert a + b == b;
    } else {
      RunsCompose(Apply(s, a[0]), a[1..], b);
      assert (a + b)[0] == a[0] && (a + b)[1..] == a[1..] + b;
    }
  }

  lemma NewGuardInv(maxCost: Option<real>)
    requires maxCost.Some? ==> maxCost.value >= 0.0
    ensures Inv(System(NewGuard(maxCost), [])) && Within(NewGuard(maxCost))
  {
  }

  function SettledCount(calls: seq<Phase>): nat {
    if calls == [] then 0 else SettledCount(calls[..|calls| - 1]) + (if calls[|calls| - 1].Settled? then 1 else 0)
  }

  ghost predicate NoOverrun(calls: seq<Phase>) {
    forall i :: 0 <= i < |calls| && calls[i].Settled? ==> calls[i].cost <= calls[i].amount
  }

  lemma {:induction false} OverrunBound(calls: seq<Phase>)
    requires forall i :: 0 <= i < |calls| ==> GoodPhase(calls[i])
    ensures Total(Overrun, calls) <= SettledCount(calls) as real * 0.000000000001
    ensures NoOverrun(calls) ==> Total(Overrun, calls) == 0.0
  {
    if calls != [] {
      var n := |calls| - 1;
      OverrunBound(calls[..n]);
      assert calls == calls[..n] + [calls[n]];
      TotalAppend(Overrun, calls[..n], calls[n]);
    }
  }

  /** In every interleaving: what is reserved is exactly what is in flight or held, what is spent is exactly what was
      settled, and the two together stay within the budget up to the settlement tolerance per settled call, and within
      it without any tolerance if no settled cost exceeds its reservation. */
  lemma BudgetIsKept(maxCost: Option<real>, es: seq<Step>)
    requires maxCost.Some? ==> maxCost.value >= 0.0
    requires AllAllowed(System(NewGuard(maxCost), []), es)
    ensures var s := ApplyAll(System(NewGuard(maxCost), []), es);
            && s.guard.reserved == Total(Outstanding, s.calls)
            && s.guard.total == Total(Spent, s.calls)
            && (maxCost.Some? ==>
                  s.guard.total + s.guard.reserved <= maxCost.value + SettledCount(s.calls) as real * 0.000000000001)
            && (maxCost.Some? && NoOverrun(s.calls) ==> s.guard.total + s.guard.reserved <= maxCost.value)
  {
    hide AllAllowed, ApplyAll;
    var s0 := System(NewGuard(maxCost), []);
    NewGuardInv(maxCost);
    RunKeepsInv(s0, es);
    OverrunBound(ApplyAll(s0, es).calls);
  }

  /** The tolerance is real: a single settlement can end above the budget. */
  lemma BudgetCanBeOverrun()
    ensures var es := [ReserveStep(1.0), SettleStep(0, 1.0 + TOLERANCE)];
            var s0 := System(NewGuard(Some(1.0)), []);
            AllAllowed(s0, es) && ApplyAll(s0, es).guard.total > 1.0
  {
    var s0 := System(NewGuard(Some(1.0)), []);
    var s1 := Apply(s0, ReserveStep(1.0));
    assert s1.calls == [InFlight(1.0)];
    var e2 := SettleStep(0, 1.0 + TOLERANCE);
    var s2 := Apply(s1, e2);
    var es := [ReserveStep(1.0), e2];
    assert es[1..] == [e2] && es[1..][1..] == [];
    assert AllAllowed(s2, []) && ApplyAll(s2, []) == s2;
    assert AllAllowed(s1, [e2]) && ApplyAll(s1, [e2]) == s2;
  }

  // ---------------------------------------------------------------- when exactly the strict budget holds

  /** Spend and reservations are within the maximum, without the tolerance. */
  ghost predicate Within(g: Guard) { g.maxCost.Some? ==> g.total + g.reserved <= g.maxCost.value }

  /** What a settlement needs: the cost runs past its reservation by no more than the money neither spent nor reserved.
      Every other step, a refused settlement included, needs nothing. */
  predicate Covered(s: System, e: Step)
    requires Allowed(s, e)
  {
    e.SettleStep? && 0.0 <= e.cost <= s.calls[e.who].amount + TOLERANCE && s.guard.maxCost.Some? ==>
      e.cost - s.calls[e.who].amount <= s.guard.maxCost.value - s.guard.total - s.guard.reserved
  }

  /** A reservation is granted exactly when no charge is uncertain and spend and reservations stay within the maximum with
      it; it adds its amount to the reservations, and nothing else changes. */
  lemma GrantedIff(g: Guard, upper: real)
    ensures var r := Reserve(g, upper);
            && (r.1.Ok? <==> g.uncertain == 0 && Within(g.(reserved := g.reserved + upper)))
            && (r.1.Ok? ==> r.1.value == upper && r.0 == g.(reserved := g.reserved + upper))
            && (!r.1.Ok? ==> r.0 == g)
  {
  }

  /** A step leaves the budget exactly when it is a settlement that is not covered. */
  lemma StepWithinIff(s: System, e: Step)
    requires Inv(s) && Allowed(s, e) && Within(s.guard)
    ensures Within(Apply(s, e).guard) <==> Covered(s, e)
  {
    hide Total;
    match e {
      case SettleStep(who, _) => OutstandingCovers(s, who);
      case ReleaseStep(who) => OutstandingCovers(s, who);
      case _ =>
    }
  }

  /** A settlement lands within the budget exactly when it is covered, wherever the system stood before. */
  lemma SettleWithinIff(s: System, who: nat, cost: real)
    requires Inv(s) && Allowed(s, SettleStep(who, cost)) && s.guard.maxCost.Some?
    requires 0.0 <= cost <= s.calls[who].amount + TOLERANCE
    ensures Within(Apply(s, SettleStep(who, cost)).guard)
       <==> cost - s.calls[who].amount <= s.guard.maxCost.value - s.guard.total - s.guard.reserved
  {
    hide Total;
    OutstandingCovers(s, who);
  }

  /** The guard is within its budget before, between and after the steps. */
  ghost predicate AlwaysWithin(s: System, es: seq<Step>)
    requires AllAllowed(s, es)
    decreases |es|
  {
    Within(s.guard) && (es == [] || AlwaysWithin(Apply(s, es[0]), es[1..]))
  }

  ghost predicate AllCovered(s: System, es: seq<Step>)
    requires AllAllowed(s, es)
    decreases |es|
  {
    es == [] || (Covered(s, es[0]) && AllCovered(Apply(s, es[0]), es[1..]))
  }

  lemma {:induction false} RunWithinIff(s: System, es: seq<Step>)
    requires Inv(s) && Within(s.guard) && AllAllowed(s, es)
    ensures AlwaysWithin(s, es) <==> AllCovered(s, es)
    decreases |es|
  {
    hide Inv, Allowed, Apply, Within, Covered;
    if es != [] {
      StepWithinIff(s, es[0]);
      StepKeepsInv(s, es[0]);
      if Within(Apply(s, es[0]).guard) { RunWithinIff(Apply(s, es[0]), es[1..]); }
    }
  }

  /** Every run of a new guard stays within the budget throughout exactly when each settlement is covered when it is
      made. */
  lemma StrictBudgetIff(maxCost: Option<real>, es: seq<Step>)
    requires maxCost.Some? ==> maxCost.value >= 0.0
    requires AllAllowed(System(NewGuard(maxCost), []), es)
    ensures AlwaysWithin(System(NewGuard(maxCost), []), es) <==> AllCovered(System(NewGuard(maxCost), []), es)
  {
    hide AllAllowed, AlwaysWithin, AllCovered;
    NewGuardInv(maxCost);
    RunWithinIff(System(NewGuard(maxCost), []), es);
  }

  /** Settled phases are final, so if none exceeds its reservation in the end, every settlement was covered. */
  lemma {:induction false} NoOverrunAnywhere(s: System, es: seq<Step>)
    requires Inv(s) && Within(s.guard) && AllAllowed(s, es) && NoOverrun(ApplyAll(s, es).calls)
    ensures AllCovered(s, es)
    decreases |es|
  {
    hide Inv, Within, Covered, Apply, Allowed, NoOverrun;
    if es != [] {
      var t := Apply(s, es[0]);
      assert ApplyAll(s, es) == ApplyAll(t, es[1..]);
      StepKeepsInv(s, es[0]);
      CoveredIfFinal(s, es[0], es[1..]);
      StepWithinIff(s, es[0]);
      NoOverrunAnywhere(t, es[1..]);
    }
  }

  lemma CoveredIfFinal(s: System, e: Step, es: seq<Step>)
    requires Within(s.guard) && Allowed(s, e) && AllAllowed(Apply(s, e), es) && NoOverrun(ApplyAll(Apply(s, e), es).calls)
    ensures Covered(s, e)
  {
    hide AllAllowed, ApplyAll;
    var t := Apply(s, e);
    if e.SettleStep? && 0.0 <= e.cost <= s.calls[e.who].amount + TOLERANCE {
      assert t.calls[e.who] == Settled(s.calls[e.who].amount, e.cost);
      EndingsAreFinal(t, es, e.who);
    }
  }

  /** The first step after which a run is over budget is an uncovered settlement. */
  lemma {:induction false} FirstOverrunIsASettlement(s: System, es: seq<Step>) returns (k: nat)
    requires Inv(s) && Within(s.guard) && AllAllowed(s, es) && !AlwaysWithin(s, es)
    ensures k < |es| && AllAllowed(s, es[..k]) && AlwaysWithin(s, es[..k])
    ensures var before := ApplyAll(s, es[..k]);
            && Allowed(before, es[k]) && Within(before.guard) && !Within(Apply(before, es[k]).guard)
            && es[k].SettleStep? && !Covered(before, es[k])
    decreases |es|
  {
    hide Inv, Allowed, Apply, Within;
    StepWithinIff(s, es[0]);
    StepKeepsInv(s, es[0]);
    var t := Apply(s, es[0]);
    if Within(t.guard) {
      var j := FirstOverrunIsASettlement(t, es[1..]);
      k := j + 1;
      assert es[..k][0] == es[0] && es[..k][1..] == es[1..][..j];
    } else {
      k := 0;
      assert es[..0] == [];
    }
  }

  lemma {:induction false} StoppedStaysStopped(s: System, es: seq<Step>)
    requires s.guard.uncertain > 0 && AllAllowed(s, es)
    ensures ApplyAll(s, es).guard.uncertain > 0 && |ApplyAll(s, es).calls| == |s.calls|
    decreases |es|
  {
    if es != [] { StoppedStaysStopped(Apply(s, es[0]), es[1..]); }
  }

  /** After one uncertain call with a positive reservation, no reservation is ever granted again. */
  lemma UncertainStopsTheRun(s: System, who: nat, es: seq<Step>)
    requires Allowed(s, UncertainStep(who)) && s.calls[who].amount != 0.0
    requires AllAllowed(Apply(s, UncertainStep(who)), es)
    ensures |ApplyAll(Apply(s, UncertainStep(who)), es).calls| == |s.calls|
  {
    StoppedStaysStopped(Apply(s, UncertainStep(who)), es);
  }

  /** A reservation ends once: settled, released and held are final, and its amount never changes. */
  lemma {:induction false} EndingsAreFinal(s: System, es: seq<Step>, i: nat)
    requires AllAllowed(s, es) && i < |s.calls|
    ensures i < |ApplyAll(s, es).calls| && ApplyAll(s, es).calls[i].amount == s.calls[i].amount
    ensures !s.calls[i].InFlight? ==> ApplyAll(s, es).calls[i] == s.calls[i]
    decreases |es|
  {
    if es != [] {
      assert i < |Apply(s, es[0]).calls|;
      EndingsAreFinal(Apply(s, es[0]), es[1..], i);
    }
  }
}
