/** The randomized lesson trial of benchmarks/coding_lesson_bench.py: the round-robin plan, the tracker that stops a task
    at its first unresolved occasion, and the weighted uplift gate. The journal, the runner and the interval formula are
    oracles. Tasks are named by their position in the manifest. */
module CodingLesson {
  import opened Common

  // ---------------------------------------------------------------- the plan

  /** `_planned_task_slots`. */
  function PlannedSlots(tasks: nat, occasions: nat, task: nat): nat
    requires tasks > 0
  {
    occasions / tasks + (if task < occasions % tasks then 1 else 0)
  }

  /** How often the round-robin loop has visited a task after `n` occasions. */
  function Visits(tasks: nat, n: nat, task: nat): nat
    requires tasks > 0
  {
    if n == 0 then 0 else Visits(tasks, n - 1, task) + (if (n - 1) % tasks == task then 1 else 0)
  }

  lemma NextDivision(n: nat, m: nat)
    requires m > 0
    ensures if (n + 1) % m == 0 then (n + 1) / m == n / m + 1 && n % m == m - 1
            else (n + 1) / m == n / m && (n + 1) % m == n % m + 1
  {
    var q, r := n / m, n % m;
    assert n == m * q + r && 0 <= r < m;
    if r + 1 < m { DivisionIs(n + 1, m, q, r + 1); } else { assert n + 1 == m * (q + 1); DivisionIs(n + 1, m, q + 1, 0); }
  }

  /** The plan is exactly what the loop does. */
  lemma {:induction false} VisitsArePlanned(tasks: nat, n: nat, task: nat)
    requires task < tasks
    ensures Visits(tasks, n, task) == PlannedSlots(tasks, n, task)
  {
    if n == 0 {
      DivisionIs(0, tasks, 0, 0);
    } else {
      VisitsArePlanned(tasks, n - 1, task);
      NextDivision(n - 1, tasks);
    }
  }

  function TotalVisits(tasks: nat, n: nat, upTo: nat): nat
    requires tasks > 0
  {
    if upTo == 0 then 0 else TotalVisits(tasks, n, upTo - 1) + Visits(tasks, n, upTo - 1)
  }

  function TotalSlots(tasks: nat, occasions: nat, upTo: nat): nat
    requires tasks > 0
  {
    if upTo == 0 then 0 else TotalSlots(tasks, occasions, upTo - 1) + PlannedSlots(tasks, occasions, upTo - 1)
  }

  lemma {:induction false} OneMoreVisit(tasks: nat, n: nat, upTo: nat)
    requires tasks > 0 && n > 0
    ensures TotalVisits(tasks, n, upTo) == TotalVisits(tasks, n - 1, upTo) + (if (n - 1) % tasks < upTo then 1 else 0)
  {
    if upTo > 0 { OneMoreVisit(tasks, n, upTo - 1); }
  }

  lemma {:induction false} NoVisits(tasks: nat, upTo: nat)
    requires tasks > 0
    ensures TotalVisits(tasks, 0, upTo) == 0
  {
    if upTo > 0 { NoVisits(tasks, upTo - 1); }
  }

  lemma {:induction false} AllVisits(tasks: nat, n: nat)
    requires tasks > 0
    ensures TotalVisits(tasks, n, tasks) == n
  {
    if n == 0 { NoVisits(tasks, tasks); } else { AllVisits(tasks, n - 1); OneMoreVisit(tasks, n, tasks); }
  }

  lemma {:induction false} SlotsAreVisits(tasks: nat, occasions: nat, upTo: nat)
    requires 0 < tasks && upTo <= tasks
    ensures TotalSlots(tasks, occasions, upTo) == TotalVisits(tasks, occasions, upTo)
  {
    if upTo > 0 {
      SlotsAreVisits(tasks, occasions, upTo - 1);
      VisitsArePlanned(tasks, occasions, upTo - 1);
    }
  }

  /** The planned slots sum to the number of occasions. */
  lemma PlanSumsToOccasions(tasks: nat, occasions: nat)
    requires tasks > 0
    ensures TotalSlots(tasks, occasions, tasks) == occasions
  {
    SlotsAreVisits(tasks, occasions, tasks);
    AllVisits(tasks, occasions);
  }

  // ---------------------------------------------------------------- the tracker

  /** One recorded occasion; `outcome` is null when the run or the harness failed. */
  datatype Row = Row(task: nat, injected: bool, randomized: bool, outcome: Option<bool>)

  function Randomized(rows: seq<Row>, task: nat): nat {
    if rows == [] then 0
    else Randomized(rows[..|rows| - 1], task)
         + (if rows[|rows| - 1].task == task && rows[|rows| - 1].randomized then 1 else 0)
  }

  function Unresolved(rows: seq<Row>, task: nat): nat {
    if rows == [] then 0
    else Unresolved(rows[..|rows| - 1], task)
         + (if rows[|rows| - 1].task == task && rows[|rows| - 1].randomized && rows[|rows| - 1].outcome.None? then 1 else 0)
  }

  lemma RowAppended(rows: seq<Row>, r: Row, task: nat)
    ensures Randomized(rows + [r], task) == Randomized(rows, task) + (if r.task == task && r.randomized then 1 else 0)
    ensures Unresolved(rows + [r], task)
         == Unresolved(rows, task) + (if r.task == task && r.randomized && r.outcome.None? then 1 else 0)
  {
    assert (rows + [r])[..|rows|] == rows;
  }

  /** The tracker's record of one harmful task. */
  datatype Lesson = Lesson(allotted: nat, resolved: nat, injected: nat, halted: bool, retired: bool)

  /** Oracles: the coin of an unmanaged task, the arm the holdout log assigns, the outcome of an occasion, and whether
      reconciling after it retires the lesson. */
  datatype Oracle = Oracle(coin: nat -> bool, withheld: nat -> bool, outcome: nat -> Option<bool>, retires: nat -> bool)

  class Tracker {
    const tasks: nat
    const harmful: set<nat>
    var lessons: map<nat, Lesson>
    var halted: set<nat>

    /** What holds between occasions, given the rows recorded so far. */
    ghost predicate Valid(rows: seq<Row>)
      reads this
    {
      && tasks > 0 && lessons.Keys <= harmful
      && (forall i :: i in lessons ==>
            && lessons[i].allotted == Randomized(rows, i)
            && lessons[i].allotted == lessons[i].resolved + (if lessons[i].halted then 1 else 0)
            && (lessons[i].halted <==> i in halted)
            && lessons[i].injected <= lessons[i].allotted)
      && (forall i: nat :: Unresolved(rows, i) == if i in halted then 1 else 0)
      && (forall i: nat :: Randomized(rows, i) <= Visits(tasks, |rows|, i))
      && (forall k :: 0 <= k < |rows| ==> rows[k].task == k % tasks && (rows[k].injected ==> rows[k].randomized))
    }

    /** Harmful lessons get a record when the plan gives them at least one occasion. */
    constructor (tasks: nat, harmful: set<nat>, occasions: nat)
      requires tasks > 0
      ensures Valid([]) && this.tasks == tasks && this.harmful == harmful
      ensures lessons.Keys == set i | i in harmful && PlannedSlots(tasks, occasions, i) > 0
    {
      hide PlannedSlots;
      this.tasks, this.harmful := tasks, harmful;
      lessons := map i | i in harmful && PlannedSlots(tasks, occasions, i) > 0 :: Lesson(0, 0, 0, false, false);
      halted := {};
    }

    method Assign(task: nat, coin: bool, withheld: bool) returns (injected: bool, randomized: bool)
      modifies `lessons
      ensures injected <==> randomized && (if task in old(lessons) then !withheld else coin)
      ensures randomized <==>
                (&& task !in old(halted)
                 && (if task in old(lessons) then !old(lessons[task]).halted && !old(lessons[task]).retired
                     else task !in harmful))
      ensures randomized && task in old(lessons) ==>
                lessons == old(lessons)[task := old(lessons[task]).(allotted := old(lessons[task]).allotted + 1,
                                                                    injected := old(lessons[task]).injected + (if injected then 1 else 0))]
      ensures !(randomized && task in old(lessons)) ==> lessons == old(lessons)
    {
      if task in halted { return false, false; }
      if task !in lessons {
        if task in harmful { return false, false; }
        return coin, true;
      }
      var l := lessons[task];
      if l.halted || l.retired { return false, false; }
      injected, randomized := !withheld, true;
      lessons := lessons[task := l.(allotted := l.allotted + 1, injected := l.injected + (if injected then 1 else 0))];
    }

    method Observe(task: nat, randomized: bool, outcome: Option<bool>, retires: bool)
      modifies `lessons, `halted
      ensures !randomized ==> lessons == old(lessons) && halted == old(halted)
      ensures randomized && outcome.None? ==>
                && halted == old(halted) + {task}
                && lessons == (if task in old(lessons) then old(lessons)[task := old(lessons[task]).(halted := true)] else old(lessons))
      ensures randomized && outcome.Some? ==>
                && halted == old(halted)
                && lessons == (if task in old(lessons)
                               then var l := old(lessons[task]);
                                    old(lessons)[task := l.(resolved := l.resolved + 1, retired := l.retired || retires)]
                               else old(lessons))
    {
      if !randomized { return; }
      if outcome.None? {
        halted := halted + {task};
        if task in lessons { lessons := lessons[task := lessons[task].(halted := true)]; }
        return;
      }
      if task !in lessons { return; }
      var l := lessons[task].(resolved := lessons[task].resolved + 1);
      lessons := lessons[task := if l.retired then l else l.(retired := retires)];
    }

    /** One pass of the occasion loop: assign, run, observe, record. */
    method Occasion(rows: seq<Row>, o: Oracle) returns (r: Row)
      requires Valid(rows)
      modifies this
      ensures Valid(rows + [r]) && lessons.Keys == old(lessons).Keys
      ensures r.task == |rows| % tasks && r.outcome == o.outcome(|rows|)
      ensures r.injected <==> r.randomized && (if r.task in old(lessons) then !o.withheld(|rows|) else o.coin(|rows|))
      ensures r.randomized ==> Unresolved(rows, r.task) == 0
    {
      hide Randomized, Unresolved, Visits;
      var n := |rows|;
      var task := n % tasks;
      var injected, randomized := Assign(task, o.coin(n), o.withheld(n));
      Observe(task, randomized, o.outcome(n), o.retires(n));
      r := Row(task, injected, randomized, o.outcome(n));
      forall i: nat
        ensures Randomized(rows + [r], i) == Randomized(rows, i) + (if i == task && randomized then 1 else 0)
        ensures Unresolved(rows + [r], i) == Unresolved(rows, i) + (if i == task && randomized && r.outcome.None? then 1 else 0)
        ensures Visits(tasks, n + 1, i) == Visits(tasks, n, i) + (if i == task then 1 else 0)
      {
        RowAppended(rows, r, i);
        NextVisit(tasks, n, i);
      }
    }
  }

  lemma NextVisit(tasks: nat, n: nat, task: nat)
    requires tasks > 0
    ensures Visits(tasks, n + 1, task) == Visits(tasks, n, task) + (if n % tasks == task then 1 else 0)
  {
  }

  const MAX_HARMFUL_OCCASIONS := 10000

  /** The inputs `run` and the tracker refuse. */
  predicate Refused(tasks: nat, harmful: set<nat>, occasions: int) {
    tasks == 0 || occasions < 2 || exists i :: i in harmful && PlannedSlots(tasks, occasions, i) > MAX_HARMFUL_OCCASIONS
  }

  /** The loop of `run`; a null tracker stands for the ValueError. */
  method RunTrial(tasks: nat, harmful: set<nat>, occasions: int, o: Oracle) returns (rows: seq<Row>, t: Tracker?)
    requires forall i :: i in harmful ==> i < tasks
    ensures t == null <==> Refused(tasks, harmful, occasions)
    ensures t == null <==> tasks == 0 || occasions < 2 || exists i :: i in harmful && PlannedSlots(tasks, occasions, i) > 10000
    ensures t != null ==>
              && |rows| == occasions && t.tasks == tasks && t.Valid(rows)
              && (forall i: nat :: Unresolved(rows, i) <= 1)
              && (forall k :: 0 <= k < |rows| && rows[k].injected ==> rows[k].randomized)
              && (forall i :: i in t.lessons ==>
                    t.lessons[i].allotted == t.lessons[i].resolved + (if t.lessons[i].halted then 1 else 0))
              && (forall i :: 0 <= i < tasks ==> Randomized(rows, i) <= PlannedSlots(tasks, occasions, i))
  {
    hide PlannedSlots, Randomized, Unresolved, Visits;
    rows := [];
    if Refused(tasks, harmful, occasions) { return rows, null; }
    var tr := new Tracker(tasks, harmful, occasions);
    for n := 0 to occasions
      invariant |rows| == n && tr.tasks == tasks && tr.Valid(rows)
      invariant fresh(tr)
    {
      var r := tr.Occasion(rows, o);
      rows := rows + [r];
    }
    forall i | 0 <= i < tasks ensures Randomized(rows, i) <= PlannedSlots(tasks, occasions, i) {
      VisitsArePlanned(tasks, occasions, i);
    }
    t := tr;
  }

  // ---------------------------------------------------------------- weights

  function Share(x: real, d: real): real
    requires d > 0.0
  {
    x / d
  }

  function Shares(s: seq<real>, d: real): (r: seq<real>)
    requires d > 0.0
    ensures |r| == |s| && forall i :: 0 <= i < |s| ==> r[i] == Share(s[i], d)
  {
    if s == [] then [] else Shares(s[..|s| - 1], d) + [Share(s[|s| - 1], d)]
  }

  /** `_normalize_task_weights`: scheduled weights may be zero, explicit ones may not. */
  function NormalizeWeights(raw: seq<real>, explicit: bool): Option<seq<real>> {
    if exists i :: 0 <= i < |raw| && (raw[i] < 0.0 || (explicit && raw[i] == 0.0)) then None
    else if Sum(raw) <= 0.0 then None
    else Some(Shares(raw, Sum(raw)))
  }

  lemma ShareFacts(a: real, b: real, d: real)
    requires d > 0.0
    ensures Share(a + b, d) == Share(a, d) + Share(b, d)
    ensures Share(d, d) == 1.0 && Share(0.0, d) == 0.0
  {
  }

  lemma ShareSign(a: real, d: real)
    requires d > 0.0
    ensures a >= 0.0 ==> Share(a, d) >= 0.0
    ensures a > 0.0 ==> Share(a, d) > 0.0
    ensures Share(a, d) * d == a
  {
  }

  lemma {:induction false} SharesSum(s: seq<real>, d: real)
    requires d > 0.0
    ensures Sum(Shares(s, d)) == Share(Sum(s), d)
  {
    hide Share;
    if s == [] {
      ShareFacts(0.0, 0.0, d);
    } else {
      var n := |s| - 1;
      SharesSum(s[..n], d);
      assert Shares(s, d)[..n] == Shares(s[..n], d);
      ShareFacts(Sum(s[..n]), s[n], d);
    }
  }

  /** Weights are accepted exactly when none is negative, none is zero if they were given explicitly, and not all are
      zero. */
  lemma {:induction false} WeightsAcceptedIff(raw: seq<real>, explicit: bool)
    ensures NormalizeWeights(raw, explicit).Some? <==>
              && (forall i :: 0 <= i < |raw| ==> raw[i] >= 0.0 && (explicit ==> raw[i] > 0.0))
              && exists i :: 0 <= i < |raw| && raw[i] > 0.0
  {
    if forall i :: 0 <= i < |raw| ==> raw[i] >= 0.0 {
      PositiveSum(raw);
    }
  }

  lemma {:induction false} PositiveSum(s: seq<real>)
    requires Nonneg(s)
    ensures Sum(s) > 0.0 <==> exists i :: 0 <= i < |s| && s[i] > 0.0
  {
    if s != [] {
      var n := |s| - 1;
      PositiveSum(s[..n]);
      SumNonneg(s[..n]);
      if i :| 0 <= i < n && s[..n][i] > 0.0 { assert s[i] > 0.0; }
      if i :| 0 <= i < n && s[i] > 0.0 { assert s[..n][i] > 0.0; }
    }
  }

  /** Accepted weights sum to one, are not negative, keep their proportions, and are positive when given explicitly. */
  lemma WeightsAreNormalized(raw: seq<real>, explicit: bool)
    requires NormalizeWeights(raw, explicit).Some?
    ensures var w := NormalizeWeights(raw, explicit).value;
            && |w| == |raw| && Sum(w) == 1.0
            && (forall i :: 0 <= i < |w| ==> w[i] >= 0.0 && (explicit ==> w[i] > 0.0))
            && (forall i :: 0 <= i < |w| ==> w[i] * Sum(raw) == raw[i])
  {
    hide Share, Sum, Shares;
    var total := Sum(raw);
    var w := Shares(raw, total);
    SharesSum(raw, total);
    ShareFacts(0.0, 0.0, total);
    forall i | 0 <= i < |raw| ensures w[i] >= 0.0 && (explicit ==> w[i] > 0.0) && w[i] * total == raw[i] {
      ShareSign(raw[i], total);
    }
  }

  /** The raw scheduled weights of the first tasks. */
  function SlotWeights(tasks: nat, occasions: nat, upTo: nat): (w: seq<real>)
    requires tasks > 0
    ensures |w| == upTo && forall i :: 0 <= i < upTo ==> w[i] == PlannedSlots(tasks, occasions, i) as real
  {
    if upTo == 0 then [] else SlotWeights(tasks, occasions, upTo - 1) + [PlannedSlots(tasks, occasions, upTo - 1) as real]
  }

  lemma {:induction false} SlotWeightsSum(tasks: nat, occasions: nat, upTo: nat)
    requires tasks > 0
    ensures Sum(SlotWeights(tasks, occasions, upTo)) == TotalSlots(tasks, occasions, upTo) as real
  {
    hide PlannedSlots;
    if upTo > 0 {
      SlotWeightsSum(tasks, occasions, upTo - 1);
      SumAppend(SlotWeights(tasks, occasions, upTo - 1), PlannedSlots(tasks, occasions, upTo - 1) as real);
    }
  }

  /** Scheduled weights are always accepted, and are the tasks' slots over the occasions. */
  lemma ScheduledWeights(tasks: nat, occasions: nat)
    requires tasks > 0 && occasions > 0
    ensures var w := NormalizeWeights(SlotWeights(tasks, occasions, tasks), false);
            && w.Some? && |w.value| == tasks
            && forall i :: 0 <= i < tasks ==> w.value[i] == Share(PlannedSlots(tasks, occasions, i) as real, occasions as real)
  {
    hide PlannedSlots, Share, Sum;
    SlotWeightsSum(tasks, occasions, tasks);
    PlanSumsToOccasions(tasks, occasions);
  }

  // ---------------------------------------------------------------- the uplift gate

  const MIN_ARM := 10
  const THRESHOLD := 0.05

  datatype Counts = Counts(randomized: nat, unresolved: nat, injectedN: nat, injectedOk: nat, withheldN: nat, withheldOk: nat)

  /** Resolved randomized occasions of a task in one arm, and the successes among them. */
  function ArmSize(rows: seq<Row>, task: nat, arm: bool): nat {
    if rows == [] then 0
    else
      var r := rows[|rows| - 1];
      ArmSize(rows[..|rows| - 1], task, arm)
      + (if r.task == task && r.randomized && r.outcome.Some? && r.injected == arm then 1 else 0)
  }

  function ArmSuccesses(rows: seq<Row>, task: nat, arm: bool): nat {
    if rows == [] then 0
    else
      var r := rows[|rows| - 1];
      ArmSuccesses(rows[..|rows| - 1], task, arm)
      + (if r.task == task && r.randomized && r.outcome == Some(true) && r.injected == arm then 1 else 0)
  }

  /** A resolved randomized occasion counts in the arm it was assigned to, as a success if it was one. */
  lemma ArmAppended(rows: seq<Row>, r: Row, task: nat, arm: bool)
    ensures var counts := r.task == task && r.randomized && r.injected == arm;
            && ArmSize(rows + [r], task, arm) == ArmSize(rows, task, arm) + (if counts && r.outcome.Some? then 1 else 0)
            && ArmSuccesses(rows + [r], task, arm)
               == ArmSuccesses(rows, task, arm) + (if counts && r.outcome == Some(true) then 1 else 0)
  {
    assert (rows + [r])[..|rows|] == rows;
  }

  ghost predicate CountsAre(c: Counts, rows: seq<Row>, task: nat) {
    && c.randomized == Randomized(rows, task) && c.unresolved == Unresolved(rows, task)
    && c.injectedN == ArmSize(rows, task, true) && c.injectedOk == ArmSuccesses(rows, task, true)
    && c.withheldN == ArmSize(rows, task, false) && c.withheldOk == ArmSuccesses(rows, task, false)
  }

  lemma CountsAppended(rows: seq<Row>, r: Row, task: nat, c: Counts)
    requires CountsAre(c, rows, task)
    ensures CountsAre(if r.task == task then Tallied(c, r) else c, rows + [r], task)
  {
    assert (rows + [r])[..|rows|] == rows;
  }

  function Tallied(c: Counts, r: Row): Counts {
    if !r.randomized then c
    else match r.outcome
      case None => c.(randomized := c.randomized + 1, unresolved := c.unresolved + 1)
      case Some(ok) =>
        var win := if ok then 1 else 0;
        if r.injected then
          c.(randomized := c.randomized + 1, injectedN := c.injectedN + 1, injectedOk := c.injectedOk + win)
        else
          c.(randomized := c.randomized + 1, withheldN := c.withheldN + 1, withheldOk := c.withheldOk + win)
  }

  /** The loop that sorts the rows into the arms of their tasks. */
  method TallyRows(tasks: nat, rows: seq<Row>) returns (counts: seq<Counts>)
    requires forall k :: 0 <= k < |rows| ==> rows[k].task < tasks
    ensures |counts| == tasks && forall i :: 0 <= i < tasks ==> CountsAre(counts[i], rows, i)
  {
    counts := seq(tasks, _ => Counts(0, 0, 0, 0, 0, 0));
    for k := 0 to |rows|
      invariant |counts| == tasks && forall i :: 0 <= i < tasks ==> CountsAre(counts[i], rows[..k], i)
    {
      hide CountsAre, Tallied;
      var r := rows[k];
      assert rows[..k + 1] == rows[..k] + [r];
      forall i | 0 <= i < tasks ensures CountsAre(if r.task == i then Tallied(counts[i], r) else counts[i], rows[..k + 1], i) {
        CountsAppended(rows[..k], r, i, counts[i]);
      }
      counts := counts[r.task := Tallied(counts[r.task], r)];
    }
    assert rows[..|rows|] == rows;
  }

  /** Every randomized occasion is in exactly one of the two arms or unresolved. */
  lemma {:induction false} ArmsPartition(rows: seq<Row>, task: nat)
    ensures Randomized(rows, task) == Unresolved(rows, task) + ArmSize(rows, task, true) + ArmSize(rows, task, false)
    ensures ArmSuccesses(rows, task, true) <= ArmSize(rows, task, true)
    ensures ArmSuccesses(rows, task, false) <= ArmSize(rows, task, false)
  {
    if rows != [] { ArmsPartition(rows[..|rows| - 1], task); }
  }

  /** The observed effect is a difference of two rates. */
  lemma EffectIsBounded(s: Stratum, rows: seq<Row>, task: nat)
    requires CountsAre(s.counts, rows, task)
    ensures -1.0 <= EffectOrZero(s) <= 1.0
  {
    ArmsPartition(rows, task);
    if HasEstimate(s) {
      RateWithinUnit(s.counts.injectedOk, s.counts.injectedN);
      RateWithinUnit(s.counts.withheldOk, s.counts.withheldN);
    }
  }

  lemma RateWithinUnit(a: nat, b: nat)
    requires 0 < b && a <= b
    ensures 0.0 <= a as real / b as real <= 1.0
  {
  }

  /** What `_stratified_uplift` reads about one task: its weight, its tallies, whether the analysis produced an effect
      for it, and the interval the formula would give. */
  datatype Stratum = Stratum(weight: real, counts: Counts, analysed: bool, low: real, high: real)

  predicate HasEstimate(s: Stratum) { s.analysed && s.counts.injectedN > 0 && s.counts.withheldN > 0 }

  predicate Testable(s: Stratum) { s.counts.injectedN >= MIN_ARM && s.counts.withheldN >= MIN_ARM }

  /** The task gets a raw interval. */
  predicate HasInterval(s: Stratum) { HasEstimate(s) && Testable(s) && s.counts.unresolved == 0 }

  function RawEffect(s: Stratum): real
    requires HasEstimate(s)
  {
    s.counts.injectedOk as real / s.counts.injectedN as real - s.counts.withheldOk as real / s.counts.withheldN as real
  }

  /** `x` is the success rate of the injected arm less that of the withheld one. */
  ghost predicate IsUplift(x: real, injectedOk: nat, injectedN: nat, withheldOk: nat, withheldN: nat) {
    x * (injectedN * withheldN) as real == (injectedOk * withheldN - withheldOk * injectedN) as real
  }

  /** A task's effect is the uplift of its tallies: positive exactly when the injected arm succeeds at the higher rate,
      and one when every injected and no withheld occasion succeeds. */
  lemma EffectIsUplift(s: Stratum)
    requires HasEstimate(s)
    ensures var c := s.counts; var x := EffectOrZero(s);
            && IsUplift(x, c.injectedOk, c.injectedN, c.withheldOk, c.withheldN)
            && (x > 0.0 <==> c.injectedOk * c.withheldN > c.withheldOk * c.injectedN)
            && (c.injectedOk == c.injectedN && c.withheldOk == 0 ==> x == 1.0)
            && (c.injectedOk == 0 && c.withheldOk == c.withheldN ==> x == -1.0)
  {
    var c := s.counts;
    RateDifference(c.injectedOk as real, c.injectedN as real, c.withheldOk as real, c.withheldN as real);
    SignOfProduct(EffectOrZero(s), (c.injectedN * c.withheldN) as real);
  }

  lemma RateDifference(a: real, n: real, b: real, m: real)
    requires n > 0.0 && m > 0.0
    ensures (a / n - b / m) * (n * m) == a * m - b * n
    ensures a == n && b == 0.0 ==> a / n - b / m == 1.0
    ensures a == 0.0 && b == m ==> a / n - b / m == -1.0
  {
    var x, y := a / n, b / m;
    assert x * n == a && y * m == b;
    assert (x - y) * (n * m) == (x * n) * m - (y * m) * n;
  }

  lemma SignOfProduct(x: real, d: real)
    requires d > 0.0
    ensures x * d > 0.0 <==> x > 0.0
  {
  }

  datatype Aggregate = Withheld(partialPoint: Option<real>) | Evaluated(point: real, low: real, high: real, shownLow: real, shownHigh: real)

  function FloorTo4(x: real): real { (x * 10000.0 + 0.0000000001).Floor as real / 10000.0 }

  function CeilTo4(x: real): real { -((-(x * 10000.0 - 0.0000000001)).Floor as real / 10000.0) }

  function Weighted(f: Stratum -> real, ss: seq<Stratum>): real {
    if ss == [] then 0.0
    else Weighted(f, ss[..|ss| - 1]) + (if ss[|ss| - 1].weight > 0.0 then ss[|ss| - 1].weight * f(ss[|ss| - 1]) else 0.0)
  }

  /** Each task adds its weight times its value; zero weights add nothing. */
  lemma WeightedAppend(f: Stratum -> real, ss: seq<Stratum>, s: Stratum)
    requires s.weight >= 0.0
    ensures Weighted(f, []) == 0.0 && Weighted(f, ss + [s]) == Weighted(f, ss) + s.weight * f(s)
  {
    assert (ss + [s])[..|ss|] == ss;
  }

  function WeightsOf(ss: seq<Stratum>): (w: seq<real>)
    ensures |w| == |ss| && forall i :: 0 <= i < |ss| ==> w[i] == ss[i].weight
  {
    if ss == [] then [] else WeightsOf(ss[..|ss| - 1]) + [ss[|ss| - 1].weight]
  }

  function Times(w: real, x: real): real { w * x }

  /** Under weights that sum to one, tasks that agree give their common value. */
  lemma WeightedConstant(f: Stratum -> real, ss: seq<Stratum>, x: real)
    requires forall i :: 0 <= i < |ss| ==> ss[i].weight >= 0.0 && (ss[i].weight > 0.0 ==> f(ss[i]) == x)
    requires Sum(WeightsOf(ss)) == 1.0
    ensures Weighted(f, ss) == x
  {
    hide Weighted, WeightsOf, Sum;
    WeightedUniform(f, ss, x);
  }

  lemma {:induction false} WeightedUniform(f: Stratum -> real, ss: seq<Stratum>, x: real)
    requires forall i :: 0 <= i < |ss| ==> ss[i].weight >= 0.0 && (ss[i].weight > 0.0 ==> f(ss[i]) == x)
    ensures Weighted(f, ss) == Times(Sum(WeightsOf(ss)), x)
  {
    if ss != [] {
      var n := |ss| - 1;
      assert WeightsOf(ss) == WeightsOf(ss[..n]) + [ss[n].weight];
      WeightedUniform(f, ss[..n], x);
      hide Times, WeightsOf, Sum;
      SumAppend(WeightsOf(ss[..n]), ss[n].weight);
      OneMoreShare(Sum(WeightsOf(ss[..n])), ss[n].weight, x);
    }
  }

  lemma OneMoreShare(total: real, w: real, x: real)
    ensures Times(total + w, x) == Times(total, x) + w * x && (w == 0.0 ==> w * x == 0.0)
  {
  }

  function EffectOrZero(s: Stratum): real { if HasEstimate(s) then RawEffect(s) else 0.0 }

  /** Every positive-weight task's interval encloses its observed effect. */
  ghost predicate Enclosing(ss: seq<Stratum>) {
    forall i :: 0 <= i < |ss| && ss[i].weight > 0.0 ==> ss[i].low <= EffectOrZero(ss[i]) <= ss[i].high
  }

  /** The aggregation loop, with its flags. */
  method StratifiedUplift(ss: seq<Stratum>) returns (a: Aggregate)
    ensures a.Evaluated? <==> forall i :: 0 <= i < |ss| && ss[i].weight > 0.0 ==> HasInterval(ss[i])
    ensures a.Evaluated? ==>
              && a.point == Weighted(EffectOrZero, ss)
              && a.low == Weighted((s: Stratum) => s.low, ss) && a.high == Weighted((s: Stratum) => s.high, ss)
              && a.shownLow == FloorTo4(a.low) && a.shownHigh == CeilTo4(a.high)
    ensures a.Evaluated? && Enclosing(ss) ==> a.low <= a.point <= a.high
    ensures UpliftGateMet(a) ==> a.low > 0.0 && a.point >= 0.05
    ensures UpliftGateMet(a) <==> a.Evaluated? && a.point >= 0.05 && a.low * 10000.0 + 0.0000000001 >= 1.0
    ensures a.Withheld? && a.partialPoint.Some? ==> a.partialPoint.value == Weighted(EffectOrZero, ss)
    ensures a.Withheld? ==>
              (a.partialPoint.Some? <==> forall i :: 0 <= i < |ss| && ss[i].weight > 0.0 ==> HasEstimate(ss[i]) && ss[i].counts.unresolved == 0)
  {
    hide Weighted, FloorTo4, CeilTo4;
    var allHaveEstimate, allTestable, targetUnresolved := true, true, 0;
    for i := 0 to |ss|
      invariant allHaveEstimate <==> forall j :: 0 <= j < i && ss[j].weight > 0.0 ==> HasEstimate(ss[j])
      invariant allTestable <==> forall j :: 0 <= j < i && ss[j].weight > 0.0 ==> HasEstimate(ss[j]) && Testable(ss[j])
      invariant targetUnresolved == 0 <==> forall j :: 0 <= j < i && ss[j].weight > 0.0 ==> ss[j].counts.unresolved == 0
      invariant targetUnresolved >= 0
    {
      if ss[i].weight > 0.0 {
        if !HasEstimate(ss[i]) {
          allHaveEstimate, allTestable := false, false;
        } else {
          allTestable := allTestable && Testable(ss[i]);
        }
        targetUnresolved := targetUnresolved + ss[i].counts.unresolved;
      }
    }
    var point := Weighted(EffectOrZero, ss);
    if allHaveEstimate && allTestable && targetUnresolved == 0 {
      var low, high := Weighted((s: Stratum) => s.low, ss), Weighted((s: Stratum) => s.high, ss);
      a := Evaluated(point, low, high, FloorTo4(low), CeilTo4(high));
      if Enclosing(ss) { IntervalEnclosesPoint(ss); }
      if UpliftGateMet(a) { GateMeansPositiveLowerBound(a); }
      GateIff(a);
    } else {
      a := Withheld(if allHaveEstimate && targetUnresolved == 0 then Some(point) else None);
    }
  }

  lemma {:induction false} WeightedMonotone(f: Stratum -> real, g: Stratum -> real, ss: seq<Stratum>)
    requires forall i :: 0 <= i < |ss| && ss[i].weight > 0.0 ==> f(ss[i]) <= g(ss[i])
    ensures Weighted(f, ss) <= Weighted(g, ss)
  {
    if ss != [] {
      var n := |ss| - 1;
      WeightedMonotone(f, g, ss[..n]);
      if ss[n].weight > 0.0 { assert ss[n].weight * (g(ss[n]) - f(ss[n])) >= 0.0; }
    }
  }

  /** If every positive-weight task's interval encloses its effect, the weighted interval encloses the weighted point. */
  lemma IntervalEnclosesPoint(ss: seq<Stratum>)
    requires Enclosing(ss)
    ensures Weighted((s: Stratum) => s.low, ss) <= Weighted(EffectOrZero, ss) <= Weighted((s: Stratum) => s.high, ss)
  {
    WeightedMonotone((s: Stratum) => s.low, EffectOrZero, ss);
    WeightedMonotone(EffectOrZero, (s: Stratum) => s.high, ss);
  }

  predicate UpliftGateMet(a: Aggregate) { a.Evaluated? && a.point >= THRESHOLD && a.shownLow > 0.0 }

  /** Rounding never opens the gate: the slack in the displayed lower bound is smaller than its last digit. */
  lemma GateMeansPositiveLowerBound(a: Aggregate)
    requires UpliftGateMet(a) && a.shownLow == FloorTo4(a.low)
    ensures a.low > 0.0 && a.point >= 0.05
  {
    var y := a.low * 10000.0 + 0.0000000001;
    assert y.Floor as real / 10000.0 > 0.0;
    assert y.Floor >= 1;
    assert y >= 1.0;
  }

  /** The gate is met exactly when the point reaches five points and the unrounded lower bound reaches one unit of the last
      displayed digit, up to the slack. */
  lemma GateIff(a: Aggregate)
    requires a.Evaluated? && a.shownLow == FloorTo4(a.low)
    ensures UpliftGateMet(a) <==> a.point >= 0.05 && a.low * 10000.0 + 0.0000000001 >= 1.0
  {
    var y := a.low * 10000.0 + 0.0000000001;
    assert a.shownLow > 0.0 <==> y.Floor >= 1;
    assert y.Floor >= 1 <==> y >= 1.0;
  }

  /** Displayed bounds are whole ten-thousandths: the greatest not above, and the least not below, up to the slack. */
  lemma DisplayedInTenThousandths(x: real) returns (low: int, high: int)
    ensures FloorTo4(x) * 10000.0 == low as real && low as real <= x * 10000.0 + 0.0000000001 < low as real + 1.0
    ensures CeilTo4(x) * 10000.0 == high as real && high as real - 1.0 < x * 10000.0 - 0.0000000001 <= high as real
  {
    low, high := (x * 10000.0 + 0.0000000001).Floor, -(-(x * 10000.0 - 0.0000000001)).Floor;
  }

  /** The displayed interval rounds outward, up to the slack. */
  lemma DisplayedIntervalIsWider(x: real)
    ensures FloorTo4(x) <= x + 0.0000000001 / 10000.0
    ensures CeilTo4(x) >= x - 0.0000000001 / 10000.0
    ensures FloorTo4(x) > x - 0.0001 && CeilTo4(x) < x + 0.0001
  {
    var y, z := x * 10000.0 + 0.0000000001, -(x * 10000.0 - 0.0000000001);
    assert y.Floor as real <= y < y.Floor as real + 1.0;
    assert z.Floor as real <= z < z.Floor as real + 1.0;
  }

  // ---------------------------------------------------------------- the whole benchmark

  lemma {:induction false} UnresolvedAreRandomized(rows: seq<Row>, task: nat)
    ensures Unresolved(rows, task) <= Randomized(rows, task)
  {
    if rows != [] { UnresolvedAreRandomized(rows[..|rows| - 1], task); }
  }

  /** The weights `run` works with: the given ones, which must name every task, or the schedule's. */
  function TargetWeights(tasks: nat, occasions: nat, given: Option<seq<real>>): (w: Option<seq<real>>)
    requires tasks > 0
    ensures w.Some? ==> |w.value| == tasks
  {
    if given.None? then NormalizeWeights(SlotWeights(tasks, occasions, tasks), false)
    else if |given.value| != tasks then None
    else NormalizeWeights(given.value, true)
  }

  /** Given weights are used in proportion, if there is one positive weight for each task; otherwise the schedule's are. */
  lemma TargetWeightsAre(tasks: nat, occasions: nat, given: Option<seq<real>>)
    requires tasks > 0 && occasions > 0
    ensures var w := TargetWeights(tasks, occasions, given);
            && (given.None? ==> w.Some? && forall i :: 0 <= i < tasks ==>
                  w.value[i] == Share(PlannedSlots(tasks, occasions, i) as real, occasions as real))
            && (given.Some? ==> (w.Some? <==> |given.value| == tasks && forall i :: 0 <= i < tasks ==> given.value[i] > 0.0))
            && (given.Some? && w.Some? ==>
                  Sum(w.value) == 1.0 && forall i :: 0 <= i < tasks ==> w.value[i] * Sum(given.value) == given.value[i])
  {
    hide NormalizeWeights, PlannedSlots, Share, Sum;
    if given.None? {
      ScheduledWeights(tasks, occasions);
    } else if |given.value| == tasks {
      WeightsAcceptedIff(given.value, true);
      if NormalizeWeights(given.value, true).Some? { WeightsAreNormalized(given.value, true); }
      assert (forall i :: 0 <= i < tasks ==> given.value[i] > 0.0) ==> given.value[0] > 0.0;
    }
  }

  /** Whatever the weighting, a task that was randomized counts. */
  lemma RandomizedTasksCount(tasks: nat, occasions: nat, given: Option<seq<real>>, i: nat)
    requires i < tasks && occasions > 0 && TargetWeights(tasks, occasions, given).Some?
    requires PlannedSlots(tasks, occasions, i) > 0
    ensures TargetWeights(tasks, occasions, given).value[i] > 0.0
  {
    hide PlannedSlots, Share;
    if given.None? {
      ScheduledWeights(tasks, occasions);
      ShareSign(PlannedSlots(tasks, occasions, i) as real, occasions as real);
    } else {
      WeightsAreNormalized(given.value, true);
    }
  }

  /** `run` from the tasks to the gate; `None` stands for the ValueError. `analysed` says for which tasks the analysis
      produced an effect, `interval` is the interval formula. A trial with any halted task, harmful or not, is never
      evaluated, not even to a point, and never meets the gate; an evaluated one has ten resolved occasions in each arm
      of every task that counts, so a plan of at least twenty. */
  method RunBenchmark(tasks: nat, harmful: set<nat>, occasions: int, given: Option<seq<real>>, o: Oracle,
                      analysed: nat -> bool, interval: (nat, Counts) -> (real, real))
      returns (rows: seq<Row>, a: Option<Aggregate>, ghost ss: seq<Stratum>)
    requires forall i :: i in harmful ==> i < tasks
    ensures a.None? <==> Refused(tasks, harmful, occasions) || TargetWeights(tasks, occasions, given).None?
    ensures given.None? ==> (a.None? <==> Refused(tasks, harmful, occasions))
    ensures a.Some? ==>
              && |rows| == occasions && |ss| == tasks
              && forall i :: 0 <= i < tasks ==>
                   && CountsAre(ss[i].counts, rows, i) && ss[i].weight == TargetWeights(tasks, occasions, given).value[i]
                   && ss[i].analysed == analysed(i) && (ss[i].low, ss[i].high) == interval(i, ss[i].counts)
    ensures a.Some? && a.value.Evaluated? ==>
              && a.value.point == Weighted(EffectOrZero, ss)
              && a.value.low == Weighted((s: Stratum) => s.low, ss) && a.value.high == Weighted((s: Stratum) => s.high, ss)
    ensures a.Some? && (exists i :: 0 <= i < tasks && Unresolved(rows, i) > 0) ==>
              a.value == Withheld(None) && !UpliftGateMet(a.value)
    ensures a.Some? && a.value.Evaluated? ==>
              forall i :: 0 <= i < tasks && TargetWeights(tasks, occasions, given).value[i] > 0.0 ==>
                && PlannedSlots(tasks, occasions, i) >= 20
                && IsUplift(EffectOrZero(ss[i]), ArmSuccesses(rows, i, true), ArmSize(rows, i, true),
                            ArmSuccesses(rows, i, false), ArmSize(rows, i, false))
    ensures a.Some? ==>
              (a.value.Evaluated? <==>
               forall i :: 0 <= i < tasks && TargetWeights(tasks, occasions, given).value[i] > 0.0 ==>
                 && analysed(i) && Unresolved(rows, i) == 0
                 && ArmSize(rows, i, true) >= 10 && ArmSize(rows, i, false) >= 10)
    ensures a.Some? && UpliftGateMet(a.value) ==> a.value.low > 0.0 && a.value.point >= 0.05
    ensures a.Some? ==>
              (UpliftGateMet(a.value) <==>
               a.value.Evaluated? && a.value.point >= 0.05 && a.value.low * 10000.0 + 0.0000000001 >= 1.0)
  {
    hide PlannedSlots, Randomized, Unresolved, ArmSize, ArmSuccesses, Weighted, NormalizeWeights, FloorTo4, UpliftGateMet, IsUplift, EffectOrZero;
    rows, ss := [], [];
    if tasks > 0 && occasions > 0 && given.None? { ScheduledWeights(tasks, occasions); }
    if tasks == 0 || occasions < 2 { return rows, None, []; }
    var w := TargetWeights(tasks, occasions, given);
    if w.None? { return rows, None, []; }
    var t;
    rows, t := RunTrial(tasks, harmful, occasions, o);
    if t == null { return rows, None, []; }
    var counts := TallyRows(tasks, rows);
    var strata := seq(tasks, i requires 0 <= i < tasks =>
                Stratum(w.value[i], counts[i], analysed(i), interval(i, counts[i]).0, interval(i, counts[i]).1));
    ss := strata;
    var agg := StratifiedUplift(strata);
    forall i | 0 <= i < tasks
      ensures Unresolved(rows, i) > 0 ==> ss[i].weight > 0.0
      ensures ArmSize(rows, i, true) + ArmSize(rows, i, false) <= PlannedSlots(tasks, occasions, i)
    {
      UnresolvedAreRandomized(rows, i);
      ArmsPartition(rows, i);
      if Unresolved(rows, i) > 0 { RandomizedTasksCount(tasks, occasions, given, i); }
    }
    forall i | 0 <= i < tasks && HasEstimate(strata[i])
      ensures IsUplift(EffectOrZero(strata[i]), ArmSuccesses(rows, i, true), ArmSize(rows, i, true),
                       ArmSuccesses(rows, i, false), ArmSize(rows, i, false))
    {
      EffectIsUplift(strata[i]);
    }
    WithheldMeansShut(agg);
    a := Some(agg);
  }

  lemma WithheldMeansShut(a: Aggregate)
    ensures a.Withheld? ==> !UpliftGateMet(a)
  {
  }
}
