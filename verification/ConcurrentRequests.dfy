/** Any number of graders share one `CostGuard` (benchmarks/conversation_bench.py grades in a thread pool). Each runs a
    completion routine of benchmarks/requests.py; a schedule says whose turn it is. One turn is one guard call, which the
    lock makes atomic, or one answered attempt. */
module ConcurrentRequests {
  import opened Common
  import opened SpendControl
  import opened BoundedRequests

  // ---------------------------------------------------------------- the callers

  /** A grader's call: a request to a provider, a free local completion, or an answer found in the cache. */
  datatype Call = Ask(request: Request) | Local | Cached(cost: real) {
    ghost predicate Valid() { Ask? ==> request.Valid() }
  }

  /** Where a caller stands. `Raised` is a settlement the guard refused; the routine then reports the charge uncertain. */
  datatype Progress = Start | Trying(attempt: nat) | Raised | Done(ending: Ending) | Recorded

  datatype World = World(guard: Guard, callers: seq<Progress>)

  /** One turn of a caller: the guard and the caller afterwards. */
  function Turn(c: Call, g: Guard, p: Progress): (Guard, Progress) {
    match c
    case Local => if p.Start? then (Record(g, 0.0, false).0, Recorded) else (g, p)
    case Cached(cost) => if p.Start? then (Record(g, cost, true).0, Recorded) else (g, p)
    case Ask(q) =>
      match p
      case Start =>
        if q.Hopeless() then (g, Done(NotReserved))
        else
          var r := Reserve(g, q.Amount());
          (r.0, if r.1.Ok? then Trying(0) else Done(NotReserved))
      case Trying(k) =>
        var d := q.Decides(k);
        if d.None? then (g, Trying(k + 1))
        else if d.value.SettledAt? && !Settle(g, q.Amount(), d.value.cost).1.Ok? then (g, Raised)
        else (Finish(g, q.Amount(), d.value), Done(d.value))
      case Raised => (Finish(g, q.Amount(), Uncertain), Done(Uncertain))
      case Done(_) => (g, p)
      case Recorded => (g, p)
  }

  function Move(calls: seq<Call>, w: World, who: nat): (r: World)
    requires |calls| == |w.callers|
    ensures |r.callers| == |w.callers|
  {
    if who >= |calls| then w
    else
      var t := Turn(calls[who], w.guard, w.callers[who]);
      World(t.0, w.callers[who := t.1])
  }

  function Schedule(calls: seq<Call>, w: World, turns: seq<nat>): (r: World)
    requires |calls| == |w.callers|
    ensures |r.callers| == |w.callers|
    decreases |turns|
  {
    if turns == [] then w else Schedule(calls, Move(calls, w, turns[0]), turns[1..])
  }

  function Opening(maxCost: Option<real>, calls: seq<Call>): World {
    World(NewGuard(maxCost), seq(|calls|, _ => Start))
  }

  // ---------------------------------------------------------------- the protocol behind a schedule

  /** The phase of a reservation whose call ended so. */
  function PhaseOf(amount: real, e: Ending): Phase {
    match e
    case SettledAt(cost) => Settled(amount, cost)
    case Refused => Released(amount)
    case _ => Held(amount)
  }

  predicate HoldsReservation(p: Progress) { p.Trying? || p.Raised? || (p.Done? && !p.ending.NotReserved?) }

  /** The reservation of one caller has exactly the phase the caller's progress says, and the ending is the one the
      routine reaches on its own. */
  ghost predicate Matches(c: Call, p: Progress, id: Option<nat>, s: System) {
    && !p.Raised?
    && (p.Start? || (p.Recorded? <==> !c.Ask?))
    && (id.Some? <==> HoldsReservation(p))
    && (id.Some? ==> id.value < |s.calls| && s.calls[id.value].amount == c.request.Amount())
    && (p.Trying? ==> s.calls[id.value] == InFlight(c.request.Amount()) && c.request.EndingFrom(p.attempt) == c.request.EndingFrom(0))
    && (p.Done? && !p.ending.NotReserved? ==>
          s.calls[id.value] == PhaseOf(c.request.Amount(), p.ending) && p.ending == c.request.EndingFrom(0))
  }

  /** No two callers share a reservation. */
  ghost predicate OneCallerEach(ids: seq<Option<nat>>) {
    forall i, j :: 0 <= i < j < |ids| && ids[i].Some? ==> ids[i] != ids[j]
  }

  /** Every reservation the guard granted belongs to a caller. */
  ghost predicate AllOwned(ids: seq<Option<nat>>, n: nat) { forall k: nat :: k < n ==> Some(k) in ids }

  /** The world is the protocol's system, with `ids[i]` the reservation of caller `i`. */
  ghost predicate Linked(calls: seq<Call>, w: World, s: System, ids: seq<Option<nat>>) {
    && |calls| == |w.callers| == |ids| && w.guard == s.guard
    && (forall i :: 0 <= i < |calls| ==> Matches(calls[i], w.callers[i], ids[i], s))
    && OneCallerEach(ids) && AllOwned(ids, |s.calls|)
  }

  /** One turn, seen alone: at most one allowed step of the protocol, and the caller still matches its reservation. */
  lemma TurnIsAStep(c: Call, p: Progress, id: Option<nat>, s: System) returns (es: seq<Step>, id': Option<nat>)
    requires c.Valid() && Matches(c, p, id, s)
    ensures var t := Turn(c, s.guard, p);
            && |es| <= 1 && AllAllowed(s, es) && ApplyAll(s, es).guard == t.0
            && Matches(c, t.1, id', ApplyAll(s, es))
            && Own(s, ApplyAll(s, es), id, id')
  {
    es, id' := [], id;
    if !c.Ask? {
      if p.Start? { es := FreeStep(c, s); }
    } else if p.Start? {
      es, id' := StartStep(c.request, s);
    } else if p.Trying? && c.request.Decides(p.attempt).Some? {
      es := EndStep(c.request, p.attempt, id.value, s);
    }
  }

  /** A step touches no reservation but the caller's own: either its phase changes or it is appended. */
  ghost predicate Own(s: System, r: System, id: Option<nat>, id': Option<nat>) {
    && (forall k :: 0 <= k < |s.calls| && id != Some(k) ==> k < |r.calls| && r.calls[k] == s.calls[k])
    && (if id == id' then |r.calls| == |s.calls|
        else id.None? && id' == Some(|s.calls|) && |r.calls| == |s.calls| + 1)
  }

  lemma OneStep(s: System, e: Step)
    requires Allowed(s, e)
    ensures AllAllowed(s, [e]) && ApplyAll(s, [e]) == Apply(s, e)
  {
    assert [e][1..] == [];
    assert AllAllowed(Apply(s, e), []) && ApplyAll(Apply(s, e), []) == Apply(s, e);
  }

  lemma NoSteps(s: System)
    ensures AllAllowed(s, []) && ApplyAll(s, []) == s
  {
  }

  lemma FreeStep(c: Call, s: System) returns (es: seq<Step>)
    requires !c.Ask?
    ensures |es| <= 1 && AllAllowed(s, es) && ApplyAll(s, es) == s.(guard := Turn(c, s.guard, Start).0)
  {
    var e := if c.Local? then RecordStep(0.0, false) else RecordStep(c.cost, true);
    if e.cost >= 0.0 {
      es := [e];
      OneStep(s, e);
    } else {
      es := [];
    }
  }

  /** A free local call and a cache hit are counted, and neither spends nor reserves anything. */
  lemma FreeCallsAreRecorded(g: Guard, cost: real)
    requires cost >= 0.0
    ensures Turn(Local, g, Start) == (g.(calls := g.calls + 1), Recorded)
    ensures Turn(Cached(cost), g, Start)
         == (g.(calls := g.calls + 1, cached := g.cached + 1, cachedCost := g.cachedCost + cost), Recorded)
  {
  }

  lemma StartStep(q: Request, s: System) returns (es: seq<Step>, id: Option<nat>)
    requires q.Valid()
    ensures var t := Turn(Ask(q), s.guard, Start);
            && |es| <= 1 && AllAllowed(s, es) && ApplyAll(s, es).guard == t.0
            && Matches(Ask(q), t.1, id, ApplyAll(s, es)) && Own(s, ApplyAll(s, es), None, id)
  {
    if q.Hopeless() {
      es, id := [], None;
    } else {
      AmountNonneg(q);
      es := [ReserveStep(q.Amount())];
      OneStep(s, es[0]);
      id := if Reserve(s.guard, q.Amount()).1.Ok? then Some(|s.calls|) else None;
    }
  }

  lemma AmountNonneg(q: Request)
    requires q.Valid()
    ensures q.Amount() >= 0.0
  {
    if q.rates.Some? { CostWithinReservation(q.rates.value, (0, 0), q.inputUpper, q.outputLimit); }
  }

  /** The step by which a caller reports its ending; the guard never refuses a settlement. */
  lemma EndStep(q: Request, k: nat, id: nat, s: System) returns (es: seq<Step>)
    requires q.Valid() && q.Decides(k).Some? && Matches(Ask(q), Trying(k), Some(id), s)
    ensures var t := Turn(Ask(q), s.guard, Trying(k));
            && |es| <= 1 && AllAllowed(s, es) && ApplyAll(s, es).guard == t.0
            && Matches(Ask(q), t.1, Some(id), ApplyAll(s, es)) && Own(s, ApplyAll(s, es), Some(id), Some(id))
  {
    hide Rates.Cost;
    var e := q.Decides(k).value;
    if e.SettledAt? { SettledWithinAmount(q, k); }
    var step := match e
      case SettledAt(cost) => SettleStep(id, cost)
      case Refused => ReleaseStep(id)
      case Uncertain => UncertainStep(id)
      case _ => StrandStep(id);
    es := [step];
    OneStep(s, step);
  }

  lemma MoveKeepsLink(calls: seq<Call>, w: World, s: System, ids: seq<Option<nat>>, who: nat)
      returns (es: seq<Step>, ids': seq<Option<nat>>)
    requires Linked(calls, w, s, ids) && forall i :: 0 <= i < |calls| ==> calls[i].Valid()
    ensures |es| <= 1 && AllAllowed(s, es) && Linked(calls, Move(calls, w, who), ApplyAll(s, es), ids')
  {
    if who >= |calls| {
      es, ids' := [], ids;
    } else {
      var id';
      es, id' := TurnIsAStep(calls[who], w.callers[who], ids[who], s);
      ids' := ids[who := id'];
      KeepLink(calls, w, s, ids, who, Turn(calls[who], s.guard, w.callers[who]).1, id', ApplyAll(s, es));
    }
  }

  lemma KeepLink(calls: seq<Call>, w: World, s: System, ids: seq<Option<nat>>, who: nat, p: Progress, id: Option<nat>, r: System)
    requires Linked(calls, w, s, ids) && who < |calls|
    requires Matches(calls[who], p, id, r) && Own(s, r, ids[who], id)
    ensures Linked(calls, World(r.guard, w.callers[who := p]), r, ids[who := id])
  {
    var ids' := ids[who := id];
    forall i | 0 <= i < |calls| && i != who ensures Matches(calls[i], w.callers[i], ids[i], r) {
      assert Matches(calls[i], w.callers[i], ids[i], s);
      assert ids[i].Some? ==> ids[who] != ids[i];
    }
    forall i | 0 <= i < |ids| && i != who && id.Some? ensures ids[i] != id {
      assert Matches(calls[i], w.callers[i], ids[i], s);
    }
    forall k: nat | k < |r.calls| ensures Some(k) in ids' {
      if k < |s.calls| {
        var i :| 0 <= i < |ids| && ids[i] == Some(k);
        assert ids'[i] == Some(k);
      } else {
        assert ids'[who] == Some(k);
      }
    }
  }

  lemma {:induction false} ScheduleKeepsLink(calls: seq<Call>, w: World, s: System, ids: seq<Option<nat>>, turns: seq<nat>)
      returns (es: seq<Step>, ids': seq<Option<nat>>)
    requires Linked(calls, w, s, ids) && forall i :: 0 <= i < |calls| ==> calls[i].Valid()
    ensures AllAllowed(s, es) && Linked(calls, Schedule(calls, w, turns), ApplyAll(s, es), ids')
    decreases |turns|
  {
    hide Linked, Move, AllAllowed, ApplyAll;
    if turns == [] {
      es, ids' := [], ids;
      NoSteps(s);
    } else {
      var e, mid := MoveKeepsLink(calls, w, s, ids, turns[0]);
      var rest;
      LinkedLength(calls, w, s, ids);
      rest, ids' := ScheduleKeepsLink(calls, Move(calls, w, turns[0]), ApplyAll(s, e), mid, turns[1..]);
      es := e + rest;
      RunsCompose(s, e, rest);
    }
  }

  lemma LinkedLength(calls: seq<Call>, w: World, s: System, ids: seq<Option<nat>>)
    requires Linked(calls, w, s, ids)
    ensures |calls| == |w.callers|
  {
  }

  lemma OpeningIsLinked(maxCost: Option<real>, calls: seq<Call>) returns (ids: seq<Option<nat>>)
    ensures Linked(calls, Opening(maxCost, calls), System(NewGuard(maxCost), []), ids)
  {
    ids := seq(|calls|, _ => None);
  }

  // ---------------------------------------------------------------- what every schedule keeps

  lemma {:induction false} SettledCostsFit(calls: seq<Call>, w: World, s: System, ids: seq<Option<nat>>, k: nat)
    requires Linked(calls, w, s, ids) && (forall i :: 0 <= i < |calls| ==> calls[i].Valid())
    requires k < |s.calls| && s.calls[k].Settled?
    ensures s.calls[k].cost <= s.calls[k].amount
  {
    assert Some(k) in ids;
    var i :| 0 <= i < |ids| && ids[i] == Some(k);
    assert Matches(calls[i], w.callers[i], ids[i], s);
    EndingWithinAmount(calls[i].request, 0);
  }

  lemma {:induction false} EndingWithinAmount(q: Request, k: nat)
    requires q.Valid() && q.EndingFrom(k).SettledAt?
    ensures 0.0 <= q.EndingFrom(k).cost <= q.Amount()
    decreases if q.Gemini? && k < q.attempts then q.attempts - k else 0
  {
    hide Rates.Cost;
    if q.Decides(k).Some? { SettledWithinAmount(q, k); } else { EndingWithinAmount(q, k + 1); }
  }

  /** Whatever the schedule: the guard calls of all callers are a run of allowed protocol steps; no settlement is ever
      refused; each caller that was granted a reservation owns one of its own, in exactly the phase its progress says,
      and every reservation is owned; a caller that has ended did so as its routine does alone; and what is spent and
      reserved never passes the maximum, with no tolerance. */
  lemma EveryScheduleKeepsTheBudget(maxCost: Option<real>, calls: seq<Call>, turns: seq<nat>)
      returns (es: seq<Step>, ids: seq<Option<nat>>)
    requires maxCost.Some? ==> maxCost.value >= 0.0
    requires forall i :: 0 <= i < |calls| ==> calls[i].Valid()
    ensures var s0, w := System(NewGuard(maxCost), []), Schedule(calls, Opening(maxCost, calls), turns);
            && AllAllowed(s0, es) && AlwaysWithin(s0, es) && ApplyAll(s0, es).guard == w.guard
            && Linked(calls, w, ApplyAll(s0, es), ids)
            && (forall i :: 0 <= i < |calls| ==> !w.callers[i].Raised?)
            && (forall i :: 0 <= i < |calls| && w.callers[i].Done? && !w.callers[i].ending.NotReserved? ==>
                  w.callers[i].ending == calls[i].request.EndingFrom(0))
            && w.guard.reserved == Total(Outstanding, ApplyAll(s0, es).calls)
            && w.guard.total == Total(Spent, ApplyAll(s0, es).calls)
            && (maxCost.Some? ==> w.guard.total + w.guard.reserved <= maxCost.value)
  {
    hide Matches, AllAllowed, ApplyAll, AlwaysWithin, AllCovered, Allowed, Schedule, Total, Inv;
    var s0 := System(NewGuard(maxCost), []);
    var start := OpeningIsLinked(maxCost, calls);
    es, ids := ScheduleKeepsLink(calls, Opening(maxCost, calls), s0, start, turns);
    var w, s := Schedule(calls, Opening(maxCost, calls), turns), ApplyAll(s0, es);
    forall k | 0 <= k < |s.calls| && s.calls[k].Settled? ensures s.calls[k].cost <= s.calls[k].amount {
      SettledCostsFit(calls, w, s, ids, k);
    }
    assert NoOverrun(s.calls);
    forall i | 0 <= i < |calls| ensures MatchesTells(calls[i], w.callers[i]) {
      MatchTells(calls[i], w.callers[i], ids[i], s);
    }
    BudgetIsKept(maxCost, es);
    NewGuardInv(maxCost);
    NoOverrunAnywhere(s0, es);
    StrictBudgetIff(maxCost, es);
  }

  ghost predicate MatchesTells(c: Call, p: Progress) {
    !p.Raised? && (p.Done? && !p.ending.NotReserved? ==> c.Ask? && p.ending == c.request.EndingFrom(0))
  }

  lemma MatchTells(c: Call, p: Progress, id: Option<nat>, s: System)
    requires Matches(c, p, id, s)
    ensures MatchesTells(c, p)
  {
  }

  // ---------------------------------------------------------------- one uncertain charge stops everyone

  /** The caller ended with an uncertain charge that may be more than zero. */
  predicate Stops(c: Call, p: Progress) { c.Ask? && p == Done(Uncertain) && c.request.Amount() != 0.0 }

  /** The guard is stopped exactly when some caller stopped it. */
  ghost predicate StopIsKnown(calls: seq<Call>, w: World) {
    && |calls| == |w.callers|
    && (w.guard.uncertain > 0 <==> exists i :: 0 <= i < |calls| && Stops(calls[i], w.callers[i]))
  }

  lemma TurnAndStop(c: Call, g: Guard, p: Progress)
    ensures var t := Turn(c, g, p);
            && (Stops(c, p) ==> Stops(c, t.1))
            && (t.0.uncertain > 0 <==> g.uncertain > 0 || (Stops(c, t.1) && !Stops(c, p)))
            && (g.uncertain > 0 && HoldsReservation(t.1) ==> HoldsReservation(p))
  {
    hide Rates.Cost;
  }

  lemma MoveKnowsStop(calls: seq<Call>, w: World, who: nat)
    requires StopIsKnown(calls, w)
    ensures StopIsKnown(calls, Move(calls, w, who))
    ensures w.guard.uncertain > 0 ==>
              && Move(calls, w, who).guard.uncertain > 0
              && forall i :: 0 <= i < |calls| && HoldsReservation(Move(calls, w, who).callers[i]) ==> HoldsReservation(w.callers[i])
  {
    hide Turn, Stops;
    if who < |calls| {
      TurnAndStop(calls[who], w.guard, w.callers[who]);
      var r := Move(calls, w, who);
      forall i | 0 <= i < |calls| && Stops(calls[i], w.callers[i]) ensures Stops(calls[i], r.callers[i]) {}
    }
  }

  lemma {:induction false} ScheduleKnowsStop(calls: seq<Call>, w: World, turns: seq<nat>)
    requires StopIsKnown(calls, w)
    ensures StopIsKnown(calls, Schedule(calls, w, turns))
    ensures w.guard.uncertain > 0 ==>
              forall i :: 0 <= i < |calls| && HoldsReservation(Schedule(calls, w, turns).callers[i]) ==> HoldsReservation(w.callers[i])
    decreases |turns|
  {
    hide StopIsKnown, Move, HoldsReservation;
    if turns != [] {
      KnownLength(calls, w);
      MoveKnowsStop(calls, w, turns[0]);
      ScheduleKnowsStop(calls, Move(calls, w, turns[0]), turns[1..]);
    }
  }

  lemma KnownLength(calls: seq<Call>, w: World)
    requires StopIsKnown(calls, w)
    ensures |calls| == |w.callers|
  {
  }

  /** In every schedule, once a caller has ended with an uncertain charge on a reservation above zero, no caller that does
      not already hold a reservation is ever granted one; and until then the guard is not stopped. */
  lemma UncertainStopsEveryone(maxCost: Option<real>, calls: seq<Call>, before: seq<nat>, after: seq<nat>)
    ensures var w := Schedule(calls, Opening(maxCost, calls), before);
            && (w.guard.uncertain > 0 <==> exists i :: 0 <= i < |calls| && Stops(calls[i], w.callers[i]))
            && (w.guard.uncertain > 0 ==>
                  forall i :: 0 <= i < |calls| && HoldsReservation(Schedule(calls, w, after).callers[i]) ==>
                    HoldsReservation(w.callers[i]))
  {
    hide HoldsReservation, Stops, Schedule;
    var start := Opening(maxCost, calls);
    NobodyStopped(maxCost, calls);
    ScheduleKnowsStop(calls, start, before);
    ScheduleKnowsStop(calls, Schedule(calls, start, before), after);
  }

  lemma NobodyStopped(maxCost: Option<real>, calls: seq<Call>)
    ensures StopIsKnown(calls, Opening(maxCost, calls))
  {
  }

  // ---------------------------------------------------------------- every caller finishes

  predicate Finished(p: Progress) { p.Done? || p.Recorded? }

  /** How many turns a caller still needs at most. */
  function Left(c: Call, p: Progress): nat {
    match p
    case Start => if c.Ask? then 3 + (if c.request.Gemini? then c.request.attempts else 0) else 1
    case Trying(k) => if c.Ask? && c.request.Gemini? && k < c.request.attempts then 2 + c.request.attempts - k else 2
    case Raised => 1
    case _ => 0
  }

  function Turns(turns: seq<nat>, who: nat): nat {
    if turns == [] then 0 else (if turns[0] == who then 1 else 0) + Turns(turns[1..], who)
  }

  /** A caller that gets its turns ends, whatever the others do: waiting is never for another caller. */
  lemma {:induction false} CallersFinish(calls: seq<Call>, w: World, turns: seq<nat>, who: nat)
    requires |calls| == |w.callers| && who < |calls| && (!calls[who].Ask? ==> w.callers[who].Start? || w.callers[who].Recorded?)
    requires Turns(turns, who) >= Left(calls[who], w.callers[who])
    ensures Finished(Schedule(calls, w, turns).callers[who])
    decreases |turns|
  {
    if turns == [] {
      assert Left(calls[who], w.callers[who]) == 0;
    } else {
      var r := Move(calls, w, turns[0]);
      TurnUsesTime(calls[who], w.guard, w.callers[who]);
      hide Turn, Left;
      CallersFinish(calls, r, turns[1..], who);
    }
  }

  lemma TurnUsesTime(c: Call, g: Guard, p: Progress)
    ensures var t := Turn(c, g, p).1;
            && (c.Ask? || p.Start? ==> Left(c, t) < Left(c, p) || Left(c, p) == Left(c, t) == 0)
            && (!c.Ask? && (p.Start? || p.Recorded?) ==> t.Recorded?)
  {
    hide Rates.Cost;
  }

  // ---------------------------------------------------------------- a caller alone

  /** A caller with the guard to itself: what its routine does to the guard from `g`, and how it ends. */
  function Alone(q: Request, g: Guard, p: Progress): World {
    match p
    case Start =>
      if q.Hopeless() || !Reserve(g, q.Amount()).1.Ok? then World(g, [Done(NotReserved)])
      else World(Finish(Reserve(g, q.Amount()).0, q.Amount(), q.EndingFrom(0)), [Done(q.EndingFrom(0))])
    case Trying(k) => World(Finish(g, q.Amount(), q.EndingFrom(k)), [Done(q.EndingFrom(k))])
    case _ => World(g, [p])
  }

  /** Given its turns and nobody else's, a caller reserves exactly when the guard grants it, and then ends as the
      completion routine does, with the guard as that routine leaves it. */
  lemma {:induction false} AloneIsTheRoutine(q: Request, g: Guard, p: Progress, turns: seq<nat>)
    requires q.Valid() && (p.Start? || p.Trying? || p.Done?) && Turns(turns, 0) >= Left(Ask(q), p)
    ensures Schedule([Ask(q)], World(g, [p]), turns) == Alone(q, g, p)
    decreases |turns|
  {
    if turns != [] {
      var w, t := World(g, [p]), Turn(Ask(q), g, p);
      TurnUsesTime(Ask(q), g, p);
      if turns[0] == 0 {
        TurnAlone(q, g, p);
        assert Move([Ask(q)], w, 0) == World(t.0, [t.1]);
        hide Turn, Left, Alone;
        AloneIsTheRoutine(q, t.0, t.1, turns[1..]);
      } else {
        hide Turn, Left, Alone;
        AloneIsTheRoutine(q, g, p, turns[1..]);
      }
    }
  }

  lemma TurnAlone(q: Request, g: Guard, p: Progress)
    requires q.Valid() && (p.Start? || p.Trying? || p.Done?)
    ensures var t := Turn(Ask(q), g, p);
            && (t.1.Trying? || t.1.Done?) && Alone(q, t.0, t.1) == Alone(q, g, p)
  {
    hide Rates.Cost;
    if p.Trying? {
      var d := q.Decides(p.attempt);
      if d.Some? && d.value.SettledAt? { SettledWithinAmount(q, p.attempt); }
    }
  }
}
