/** The paired cluster bootstrap of benchmarks/compare.py and the regression gate that reads it. Draws are arbitrary
    inputs, so every statement holds for every seed. */
module CompareRuns {
  import opened Common
  import opened Ordering

  // ---------------------------------------------------------------- percentiles

  ghost predicate Ascending(s: seq<real>) { forall i, j :: 0 <= i < j < |s| ==> s[i] <= s[j] }

  function InsertAsc(s: seq<real>, x: real): (r: seq<real>)
    ensures |r| == |s| + 1
  {
    if s == [] || s[|s| - 1] <= x then s + [x] else InsertAsc(s[..|s| - 1], x) + [s[|s| - 1]]
  }

  function SortAsc(s: seq<real>): (r: seq<real>)
    ensures |r| == |s|
  {
    if s == [] then [] else InsertAsc(SortAsc(s[..|s| - 1]), s[|s| - 1])
  }

  ghost predicate Within(s: seq<real>, low: real, high: real) { forall i :: 0 <= i < |s| ==> low <= s[i] <= high }

  lemma {:induction false} InsertAscWithin(s: seq<real>, x: real, low: real, high: real)
    requires Within(s, low, high) && low <= x <= high
    ensures Within(InsertAsc(s, x), low, high)
  {
    if s != [] && s[|s| - 1] > x { InsertAscWithin(s[..|s| - 1], x, low, high); }
  }

  ghost predicate AtMost(s: seq<real>, high: real) { forall i :: 0 <= i < |s| ==> s[i] <= high }

  lemma {:induction false} InsertAscAtMost(s: seq<real>, x: real, high: real)
    requires AtMost(s, high) && x <= high
    ensures AtMost(InsertAsc(s, x), high)
  {
    if s != [] && s[|s| - 1] > x { InsertAscAtMost(s[..|s| - 1], x, high); }
  }

  lemma {:induction false} InsertAscSorted(s: seq<real>, x: real)
    requires Ascending(s)
    ensures Ascending(InsertAsc(s, x))
  {
    if s != [] && s[|s| - 1] > x {
      var n := |s| - 1;
      InsertAscSorted(s[..n], x);
      InsertAscAtMost(s[..n], x, s[n]);
    }
  }

  lemma {:induction false} InsertAscPermutes(s: seq<real>, x: real)
    ensures multiset(InsertAsc(s, x)) == multiset(s) + multiset{x}
  {
    if s != [] && s[|s| - 1] > x {
      var n := |s| - 1;
      InsertAscPermutes(s[..n], x);
      assert s == s[..n] + [s[n]];
    }
  }

  lemma {:induction false} SortAscFacts(s: seq<real>)
    ensures Ascending(SortAsc(s)) && multiset(SortAsc(s)) == multiset(s)
  {
    if s != [] {
      var n := |s| - 1;
      SortAscFacts(s[..n]);
      InsertAscSorted(SortAsc(s[..n]), s[n]);
      InsertAscPermutes(SortAsc(s[..n]), s[n]);
      assert s == s[..n] + [s[n]];
    }
  }

  lemma {:induction false} SortAscWithin(s: seq<real>, low: real, high: real)
    requires Within(s, low, high)
    ensures Within(SortAsc(s), low, high)
  {
    if s != [] {
      var n := |s| - 1;
      SortAscWithin(s[..n], low, high);
      InsertAscWithin(SortAsc(s[..n]), s[n], low, high);
    }
  }

  function Ceil(r: real): int { if r == r.Floor as real then r.Floor else r.Floor + 1 }

  function Lerp(a: real, b: real, f: real): real { a + (b - a) * f }

  lemma LerpFacts(a: real, b: real, f: real, g: real)
    requires a <= b && 0.0 <= f <= g <= 1.0
    ensures a <= Lerp(a, b, f) <= Lerp(a, b, g) <= b
  {
    var d := b - a;
    assert d * f >= 0.0 && d * (g - f) >= 0.0 && d * (1.0 - g) >= 0.0;
    assert d * g == d * f + d * (g - f);
    assert d * (1.0 - g) == d - d * g;
  }

  function Rank(n: nat, q: real): real { (n as real - 1.0) * q }

  lemma RankBounds(n: nat, p: real, q: real)
    requires n >= 1 && 0.0 <= p <= q <= 1.0
    ensures 0.0 <= Rank(n, p) <= Rank(n, q) <= n as real - 1.0
  {
    var m := n as real - 1.0;
    assert m * p >= 0.0 && m * (q - p) >= 0.0 && m * (1.0 - q) >= 0.0;
    assert m * q == m * p + m * (q - p);
    assert m * (1.0 - q) == m - m * q;
  }

  /** Linear interpolation at a real rank, the body of `_percentile`. */
  function AtRank(s: seq<real>, rank: real): real
    requires 0.0 <= rank <= |s| as real - 1.0
  {
    Lerp(s[rank.Floor], s[Ceil(rank)], rank - rank.Floor as real)
  }

  function Percentile(s: seq<real>, q: real): real
    requires s != [] && 0.0 <= q <= 1.0
  {
    RankBounds(|s|, q, q);
    AtRank(s, Rank(|s|, q))
  }

  lemma AtRankEnclosed(s: seq<real>, r: real)
    requires Ascending(s) && 0.0 <= r <= |s| as real - 1.0
    ensures s[r.Floor] <= AtRank(s, r) <= s[Ceil(r)]
  {
    var f := r - r.Floor as real;
    LerpFacts(s[r.Floor], s[Ceil(r)], f, f);
    hide Lerp;
  }

  lemma AtRankMonotone(s: seq<real>, r: real, t: real)
    requires Ascending(s) && 0.0 <= r <= t <= |s| as real - 1.0
    ensures AtRank(s, r) <= AtRank(s, t)
  {
    hide Lerp;
    AtRankEnclosed(s, r);
    AtRankEnclosed(s, t);
    if r.Floor == t.Floor {
      if r != r.Floor as real {
        LerpFacts(s[r.Floor], s[Ceil(r)], r - r.Floor as real, t - t.Floor as real);
      } else {
        LerpAtZero(s[r.Floor]);
      }
    } else {
      assert Ceil(r) <= t.Floor;
    }
  }

  lemma LerpAtZero(a: real)
    ensures forall b :: Lerp(a, b, 0.0) == a
  {
  }

  /** The percentile is monotone in the quantile and stays within the data. */
  lemma PercentileFacts(s: seq<real>, p: real, q: real, low: real, high: real)
    requires s != [] && Ascending(s) && 0.0 <= p <= q <= 1.0 && Within(s, low, high)
    ensures low <= Percentile(s, p) <= Percentile(s, q) <= high
  {
    hide AtRank;
    RankBounds(|s|, p, q);
    AtRankMonotone(s, Rank(|s|, p), Rank(|s|, q));
    AtRankEnclosed(s, Rank(|s|, p));
    AtRankEnclosed(s, Rank(|s|, q));
    hide Rank;
  }

  /** Between two neighbouring data points the percentile is their linear interpolation at the rank (n - 1) * q; the ends
      are the least and the greatest. */
  lemma PercentileInterpolates(s: seq<real>, q: real, i: nat)
    requires i < |s| - 1 && 0.0 <= q <= 1.0 && i as real <= (|s| as real - 1.0) * q <= i as real + 1.0
    ensures Percentile(s, q) - s[i] == (s[i + 1] - s[i]) * ((|s| as real - 1.0) * q - i as real)
  {
    var r := Rank(|s|, q);
    RankBounds(|s|, q, q);
    if r < i as real + 1.0 {
      assert r.Floor == i;
      InSegment(s, r, i);
    } else {
      assert r == (i + 1) as real;
      OnPoint(s, i + 1);
    }
  }

  /** `x` is the linear interpolation of the data at the rank (n - 1) * q. */
  ghost predicate Interpolated(s: seq<real>, q: real, x: real) {
    && (forall i :: 0 <= i < |s| - 1 && i as real <= (|s| as real - 1.0) * q <= i as real + 1.0 ==>
          x - s[i] == (s[i + 1] - s[i]) * ((|s| as real - 1.0) * q - i as real))
    && (|s| == 1 ==> x == s[0])
  }

  lemma Interpolates(s: seq<real>, q: real)
    requires s != [] && 0.0 <= q <= 1.0
    ensures Interpolated(s, q, Percentile(s, q))
  {
    hide Percentile;
    forall i | 0 <= i < |s| - 1 && i as real <= (|s| as real - 1.0) * q <= i as real + 1.0
      ensures Percentile(s, q) - s[i] == (s[i + 1] - s[i]) * ((|s| as real - 1.0) * q - i as real)
    {
      PercentileInterpolates(s, q, i);
    }
    if |s| == 1 { SingleDatum(s, q); }
  }

  lemma SingleDatum(s: seq<real>, q: real)
    requires |s| == 1 && 0.0 <= q <= 1.0
    ensures Percentile(s, q) == s[0]
  {
    assert Rank(1, q) == 0.0;
    OnPoint(s, 0);
  }

  lemma InSegment(s: seq<real>, r: real, i: nat)
    requires i < |s| - 1 && r.Floor == i && 0.0 <= r <= |s| as real - 1.0
    ensures AtRank(s, r) - s[i] == (s[i + 1] - s[i]) * (r - i as real)
  {
  }

  lemma OnPoint(s: seq<real>, i: nat)
    requires i < |s|
    ensures AtRank(s, i as real) == s[i]
  {
    assert (i as real).Floor == i;
  }

  lemma PercentileEnds(s: seq<real>)
    requires s != []
    ensures Percentile(s, 0.0) == s[0] && Percentile(s, 1.0) == s[|s| - 1]
  {
    assert Rank(|s|, 0.0) == 0.0 && Rank(|s|, 1.0) == (|s| - 1) as real;
    OnPoint(s, 0);
    OnPoint(s, |s| - 1);
  }

  // ---------------------------------------------------------------- clusters

  /** One question: its conversation and the two runs' values of a metric, if scored. */
  datatype Row<C> = Row(cluster: C, baseline: Option<real>, candidate: Option<real>)

  predicate Scored<C>(row: Row<C>) { row.baseline.Some? && row.candidate.Some? }

  function Difference<C>(row: Row<C>): real
    requires Scored(row)
  {
    row.candidate.value - row.baseline.value
  }

  /** The scored differences of one cluster, in order. */
  function Group<C(==)>(rows: seq<Row<C>>, c: C): seq<real> {
    if rows == [] then []
    else
      var n := |rows| - 1;
      Group(rows[..n], c) + (if Scored(rows[n]) && rows[n].cluster == c then [Difference(rows[n])] else [])
  }

  method BuildGroups<C(==, !new)>(rows: seq<Row<C>>) returns (groups: map<C, seq<real>>)
    ensures forall c :: Get(groups, c) == Group(rows, c)
    ensures forall c :: c in groups <==> Group(rows, c) != []
  {
    groups := map[];
    for i := 0 to |rows|
      invariant forall c :: Get(groups, c) == Group(rows[..i], c)
      invariant forall c :: c in groups <==> Group(rows[..i], c) != []
    {
      assert rows[..i + 1][..i] == rows[..i];
      if Scored(rows[i]) {
        var c := rows[i].cluster;
        groups := groups[c := Get(groups, c) + [Difference(rows[i])]];
      }
    }
    assert rows[..|rows|] == rows;
  }

  /** A cluster reduced to its size and total difference. */
  datatype Total = Total(count: nat, delta: real)

  function Counts(ts: seq<Total>): nat { if ts == [] then 0 else Counts(ts[..|ts| - 1]) + ts[|ts| - 1].count }

  function Deltas(ts: seq<Total>): real { if ts == [] then 0.0 else Deltas(ts[..|ts| - 1]) + ts[|ts| - 1].delta }

  function Scale(m: real, n: nat): real { m * n as real }

  ghost predicate MeansWithin(ts: seq<Total>, m: real, M: real) {
    forall i :: 0 <= i < |ts| ==> Scale(m, ts[i].count) <= ts[i].delta <= Scale(M, ts[i].count)
  }

  ghost predicate Populated(ts: seq<Total>) { forall i :: 0 <= i < |ts| ==> ts[i].count >= 1 }

  ghost predicate AllWorse(ts: seq<Total>) { forall i :: 0 <= i < |ts| ==> ts[i].delta < 0.0 }

  lemma ScaleAdd(m: real, a: nat, b: nat)
    ensures Scale(m, a + b) == Scale(m, a) + Scale(m, b)
  {
  }

  /** The mediant inequality: pooled clusters have a mean between the extreme cluster means. */
  lemma {:induction false} PooledWithin(ts: seq<Total>, m: real, M: real)
    requires MeansWithin(ts, m, M)
    ensures Scale(m, Counts(ts)) <= Deltas(ts) <= Scale(M, Counts(ts))
  {
    hide Scale;
    if ts == [] {
      ScaleZero(m);
      ScaleZero(M);
    } else {
      var n := |ts| - 1;
      PooledWithin(ts[..n], m, M);
      ScaleAdd(m, Counts(ts[..n]), ts[n].count);
      ScaleAdd(M, Counts(ts[..n]), ts[n].count);
    }
  }

  lemma ScaleZero(m: real)
    ensures Scale(m, 0) == 0.0
  {
  }

  lemma {:induction false} PooledSigns(ts: seq<Total>)
    ensures Populated(ts) && ts != [] ==> Counts(ts) >= 1
    ensures AllWorse(ts) && ts != [] ==> Deltas(ts) < 0.0
  {
    if |ts| > 1 {
      PooledSigns(ts[..|ts| - 1]);
    } else if |ts| == 1 {
      assert ts[..0] == [];
    }
  }

  lemma RatioWithin(d: real, n: nat, m: real, M: real)
    requires n >= 1 && Scale(m, n) <= d <= Scale(M, n)
    ensures m <= d / n as real <= M
  {
    var x := n as real;
    assert d / x * x == d;
    assert (d / x - m) * x == d - m * x;
    assert (M - d / x) * x == M * x - d;
  }

  lemma RatioNegative(d: real, n: nat)
    requires n >= 1 && d < 0.0
    ensures d / n as real < 0.0
  {
  }

  // ---------------------------------------------------------------- one estimate

  /** The outcome of `_estimate`; only `Available` carries an interval. */
  datatype Estimate = NoScored | Insufficient(means: Means) | Available(means: Means, clusters: nat, lower: real, upper: real)

  datatype Means = Means(questions: nat, excluded: nat, baseline: real, candidate: real, delta: real)

  /** `rng.choices(totals, k=len(totals))` for the r-th resample. */
  function Resample(totals: seq<Total>, draw: (nat, nat, nat) -> nat, r: nat): (ts: seq<Total>)
    requires forall r, j, k :: k > 0 ==> draw(r, j, k) < k
    ensures |ts| == |totals| && forall j :: 0 <= j < |ts| ==> ts[j] == totals[draw(r, j, |totals|)]
  {
    seq(|totals|, j requires 0 <= j < |totals| => totals[draw(r, j, |totals|)])
  }

  lemma ResampleKeeps(totals: seq<Total>, draw: (nat, nat, nat) -> nat, r: nat)
    requires forall r, j, k :: k > 0 ==> draw(r, j, k) < k
    ensures Populated(totals) ==> Populated(Resample(totals, draw, r))
    ensures AllWorse(totals) ==> AllWorse(Resample(totals, draw, r))
    ensures forall m, M :: MeansWithin(totals, m, M) ==> MeansWithin(Resample(totals, draw, r), m, M)
  {
  }

  /** The mean difference of pooled clusters. */
  function PooledMean(ts: seq<Total>): real { if Counts(ts) == 0 then 0.0 else Deltas(ts) / Counts(ts) as real }

  /** It weighs every question alike, whatever its cluster. */
  lemma PooledMeanIs(ts: seq<Total>)
    requires Counts(ts) > 0
    ensures PooledMean(ts) * Counts(ts) as real == Deltas(ts)
  {
    TimesBack(Deltas(ts), Counts(ts) as real);
  }

  lemma TimesBack(a: real, b: real)
    requires b > 0.0
    ensures a / b * b == a
  {
  }

  /** The mean differences of the resamples, in draw order. */
  method Bootstrap(totals: seq<Total>, resamples: nat, draw: (nat, nat, nat) -> nat) returns (means: seq<real>)
    requires totals != [] && Populated(totals) && forall r, j, k :: k > 0 ==> draw(r, j, k) < k
    ensures |means| == resamples && forall r :: 0 <= r < resamples ==> means[r] == PooledMean(Resample(totals, draw, r))
    ensures forall m, M :: MeansWithin(totals, m, M) ==> Within(means, m, M)
    ensures AllWorse(totals) ==> forall i :: 0 <= i < |means| ==> means[i] < 0.0
  {
    hide MeansWithin, Populated, AllWorse, Scale, Deltas, Counts;
    means := [];
    for r := 0 to resamples
      invariant |means| == r && forall i :: 0 <= i < r ==> means[i] == PooledMean(Resample(totals, draw, i))
      invariant forall m, M :: MeansWithin(totals, m, M) ==> Within(means, m, M)
      invariant AllWorse(totals) ==> forall i :: 0 <= i < |means| ==> means[i] < 0.0
    {
      var sampled := Resample(totals, draw, r);
      ResampleKeeps(totals, draw, r);
      PooledSigns(sampled);
      var mean := Deltas(sampled) / Counts(sampled) as real;
      if AllWorse(totals) { RatioNegative(Deltas(sampled), Counts(sampled)); }
      forall m, M | MeansWithin(totals, m, M) ensures m <= mean <= M {
        PooledWithin(sampled, m, M);
        RatioWithin(Deltas(sampled), Counts(sampled), m, M);
      }
      means := means + [mean];
    }
  }

  /** The percentile interval of the resampled means. */
  method Interval(means: seq<real>, confidence: real) returns (lower: real, upper: real)
    requires means != [] && 0.0 < confidence < 1.0
    ensures lower == Percentile(SortAsc(means), (1.0 - confidence) / 2.0)
    ensures upper == Percentile(SortAsc(means), 1.0 - (1.0 - confidence) / 2.0)
    ensures lower <= upper
    ensures Interpolated(SortAsc(means), (1.0 - confidence) / 2.0, lower)
    ensures Interpolated(SortAsc(means), 1.0 - (1.0 - confidence) / 2.0, upper)
    ensures forall m, M :: Within(means, m, M) ==> m <= lower && upper <= M
    ensures (forall i :: 0 <= i < |means| ==> means[i] < 0.0) ==> upper < 0.0
  {
    hide Percentile, SortAsc, Interpolated;
    var ordered := SortAsc(means);
    SortAscFacts(means);
    var alpha := (1.0 - confidence) / 2.0;
    lower, upper := Percentile(ordered, alpha), Percentile(ordered, 1.0 - alpha);
    Interpolates(ordered, alpha);
    Interpolates(ordered, 1.0 - alpha);
    var last := ordered[|ordered| - 1];
    assert Within(ordered, ordered[0], last);
    PercentileFacts(ordered, alpha, 1.0 - alpha, ordered[0], last);
    forall m, M | Within(means, m, M) ensures m <= lower && upper <= M {
      SortAscWithin(means, m, M);
      PercentileFacts(ordered, alpha, 1.0 - alpha, m, M);
    }
    assert last in multiset(ordered);
    assert last in means;
  }

  /** What the rows say about every cluster, the form in which callers know it. */
  ghost predicate ClusterMeansWithin<C(!new)>(rows: seq<Row<C>>, m: real, M: real) {
    forall c :: Group(rows, c) != [] ==> Scale(m, |Group(rows, c)|) <= Sum(Group(rows, c)) <= Scale(M, |Group(rows, c)|)
  }

  ghost predicate NeverWorse<C(!new)>(rows: seq<Row<C>>) {
    forall i :: 0 <= i < |rows| && Scored(rows[i]) ==> rows[i].candidate.value >= rows[i].baseline.value
  }

  ghost predicate AlwaysWorse<C(!new)>(rows: seq<Row<C>>) {
    forall i :: 0 <= i < |rows| && Scored(rows[i]) ==> rows[i].candidate.value < rows[i].baseline.value
  }

  lemma {:induction false} GroupSigns<C(!new)>(rows: seq<Row<C>>, c: C)
    ensures NeverWorse(rows) ==> Sum(Group(rows, c)) >= 0.0
    ensures AlwaysWorse(rows) && Group(rows, c) != [] ==> Sum(Group(rows, c)) < 0.0
  {
    if rows != [] {
      var n := |rows| - 1;
      GroupSigns(rows[..n], c);
      var g := Group(rows, c);
      if Scored(rows[n]) && rows[n].cluster == c {
        assert g[..|g| - 1] == Group(rows[..n], c);
      } else {
        assert g == Group(rows[..n], c);
      }
    }
  }

  ghost predicate TotalsOf<C(!new)>(rows: seq<Row<C>>, clusters: seq<C>, totals: seq<Total>) {
    && |totals| == |clusters|
    && forall i :: 0 <= i < |clusters| ==>
         Group(rows, clusters[i]) != [] && totals[i] == Total(|Group(rows, clusters[i])|, Sum(Group(rows, clusters[i])))
  }

  lemma TotalsFacts<C(!new)>(rows: seq<Row<C>>, clusters: seq<C>, totals: seq<Total>)
    requires TotalsOf(rows, clusters, totals)
    ensures Populated(totals)
    ensures forall m, M :: ClusterMeansWithin(rows, m, M) ==> MeansWithin(totals, m, M)
    ensures AlwaysWorse(rows) ==> AllWorse(totals)
    ensures NeverWorse(rows) ==> Deltas(totals) >= 0.0 && forall i :: 0 <= i < |totals| ==> totals[i].delta >= 0.0
  {
    hide Group, Sum, Scale, NeverWorse, AlwaysWorse;
    if NeverWorse(rows) {
      forall i | 0 <= i < |totals| ensures totals[i].delta >= 0.0 { GroupSigns(rows, clusters[i]); }
      DeltasNonneg(totals);
    }
    if AlwaysWorse(rows) {
      forall i | 0 <= i < |totals| ensures totals[i].delta < 0.0 { GroupSigns(rows, clusters[i]); }
    }
  }

  lemma {:induction false} DeltasNonneg(ts: seq<Total>)
    requires forall i :: 0 <= i < |ts| ==> ts[i].delta >= 0.0
    ensures Deltas(ts) >= 0.0
  {
    if ts != [] { DeltasNonneg(ts[..|ts| - 1]); }
  }

  lemma {:induction false} DeltaAtMostSum(ts: seq<Total>, i: nat)
    requires i < |ts| && forall j :: 0 <= j < |ts| ==> ts[j].delta >= 0.0
    ensures ts[i].delta <= Deltas(ts)
  {
    var n := |ts| - 1;
    DeltasNonneg(ts[..n]);
    if i < n { DeltaAtMostSum(ts[..n], i); }
  }

  lemma ScaleUp(m: real, n: nat)
    requires m >= 0.0 && n >= 1
    ensures Scale(m, n) >= m && Scale(0.0, n) == 0.0
  {
    assert m * (n as real - 1.0) >= 0.0;
  }

  /** Clusters that never lose have means between zero and their total. */
  lemma NonnegMeans(ts: seq<Total>)
    requires Populated(ts) && forall i :: 0 <= i < |ts| ==> ts[i].delta >= 0.0
    ensures MeansWithin(ts, 0.0, Deltas(ts))
  {
    hide Scale, Deltas;
    DeltasNonneg(ts);
    forall i | 0 <= i < |ts| ensures Scale(0.0, ts[i].count) <= ts[i].delta <= Scale(Deltas(ts), ts[i].count) {
      DeltaAtMostSum(ts, i);
      ScaleUp(Deltas(ts), ts[i].count);
    }
  }

  ghost predicate SomeScored<C(!new)>(rows: seq<Row<C>>) { exists i :: 0 <= i < |rows| && Scored(rows[i]) }

  /** The scored questions come from at least two conversations. */
  ghost predicate TwoClusters<C(!new)>(rows: seq<Row<C>>) {
    exists i, j :: 0 <= i < |rows| && 0 <= j < |rows| && Scored(rows[i]) && Scored(rows[j]) && rows[i].cluster != rows[j].cluster
  }

  lemma {:induction false} GroupNonempty<C(!new)>(rows: seq<Row<C>>, c: C)
    ensures Group(rows, c) != [] <==> exists i :: 0 <= i < |rows| && Scored(rows[i]) && rows[i].cluster == c
  {
    if rows != [] {
      var n := |rows| - 1;
      GroupNonempty(rows[..n], c);
      if Group(rows[..n], c) != [] {
        var i :| 0 <= i < n && Scored(rows[..n][i]) && rows[..n][i].cluster == c;
        assert Scored(rows[i]) && rows[i].cluster == c;
      }
      if i :| 0 <= i < n && Scored(rows[i]) && rows[i].cluster == c { assert rows[..n][i] == rows[i]; }
    }
  }

  lemma ClusterCount<C(!new)>(rows: seq<Row<C>>, clusters: seq<C>)
    requires Distinct(clusters) && forall c :: c in clusters <==> Group(rows, c) != []
    ensures clusters == [] <==> !SomeScored(rows)
    ensures |clusters| >= 2 <==> TwoClusters(rows)
  {
    hide Group;
    if clusters != [] { GroupNonempty(rows, clusters[0]); assert clusters[0] in clusters; }
    if i :| 0 <= i < |rows| && Scored(rows[i]) { GroupNonempty(rows, rows[i].cluster); }
    if |clusters| >= 2 {
      assert clusters[0] in clusters && clusters[1] in clusters && clusters[0] != clusters[1];
      GroupNonempty(rows, clusters[0]);
      GroupNonempty(rows, clusters[1]);
    }
    if i, j :| 0 <= i < |rows| && 0 <= j < |rows| && Scored(rows[i]) && Scored(rows[j]) && rows[i].cluster != rows[j].cluster {
      GroupNonempty(rows, rows[i].cluster);
      GroupNonempty(rows, rows[j].cluster);
      assert rows[i].cluster in clusters && rows[j].cluster in clusters;
    }
  }

  // ---------------------------------------------------------------- the means over all scored questions

  function ScoredCount<C>(rows: seq<Row<C>>): (n: nat)
    ensures n <= |rows|
  {
    if rows == [] then 0 else ScoredCount(rows[..|rows| - 1]) + (if Scored(rows[|rows| - 1]) then 1 else 0)
  }

  function ScoredSum<C>(value: Row<C> -> Option<real>, rows: seq<Row<C>>): real {
    if rows == [] then 0.0
    else
      var row := rows[|rows| - 1];
      ScoredSum(value, rows[..|rows| - 1]) + (if Scored(row) && value(row).Some? then value(row).value else 0.0)
  }

  function BaselineSum<C>(rows: seq<Row<C>>): real { ScoredSum((row: Row<C>) => row.baseline, rows) }

  function CandidateSum<C>(rows: seq<Row<C>>): real { ScoredSum((row: Row<C>) => row.candidate, rows) }

  function MeansOf<C>(rows: seq<Row<C>>): Means
    requires ScoredCount(rows) > 0
  {
    var n := ScoredCount(rows);
    var base, candidate := BaselineSum(rows) / n as real, CandidateSum(rows) / n as real;
    Means(n, |rows| - n, base, candidate, candidate - base)
  }

  /** The reported means: questions scored and excluded make up all of them, each mean times the scored questions is the
      sum of its run's scores, and the difference is candidate less baseline. */
  lemma MeansAre<C(!new)>(rows: seq<Row<C>>)
    requires ScoredCount(rows) > 0
    ensures var m := MeansOf(rows);
            && m.questions + m.excluded == |rows| && m.questions == |set i | 0 <= i < |rows| && Scored(rows[i])|
            && m.baseline * m.questions as real == BaselineSum(rows) && m.candidate * m.questions as real == CandidateSum(rows)
            && m.delta == m.candidate - m.baseline
  {
    hide BaselineSum, CandidateSum, ScoredCount, Scored;
    CountScored(rows);
    TimesBack(BaselineSum(rows), ScoredCount(rows) as real);
    TimesBack(CandidateSum(rows), ScoredCount(rows) as real);
  }

  lemma {:induction false} CountScored<C(!new)>(rows: seq<Row<C>>)
    ensures ScoredCount(rows) == |set i | 0 <= i < |rows| && Scored(rows[i])|
  {
    if rows != [] {
      var n := |rows| - 1;
      CountScored(rows[..n]);
      var before := set i | 0 <= i < n && Scored(rows[..n][i]);
      assert (set i | 0 <= i < |rows| && Scored(rows[i])) == if Scored(rows[n]) then before + {n} else before;
    }
  }

  /** One more scored question adds its two scores, an unscored one nothing. */
  lemma SumsAppend<C(!new)>(rows: seq<Row<C>>, row: Row<C>)
    ensures BaselineSum(rows + [row]) == BaselineSum(rows) + (if Scored(row) then row.baseline.value else 0.0)
    ensures CandidateSum(rows + [row]) == CandidateSum(rows) + (if Scored(row) then row.candidate.value else 0.0)
  {
    assert (rows + [row])[..|rows|] == rows;
  }

  /** Scored questions of the listed clusters, and their total difference. */
  function CountIn<C(==)>(rows: seq<Row<C>>, cs: seq<C>): nat {
    if rows == [] then 0
    else var n := |rows| - 1; CountIn(rows[..n], cs) + (if Scored(rows[n]) && rows[n].cluster in cs then 1 else 0)
  }

  function DifferenceIn<C(==)>(rows: seq<Row<C>>, cs: seq<C>): real {
    if rows == [] then 0.0
    else
      var n := |rows| - 1;
      DifferenceIn(rows[..n], cs) + (if Scored(rows[n]) && rows[n].cluster in cs then Difference(rows[n]) else 0.0)
  }

  lemma {:induction false} OneMoreCluster<C(!new)>(rows: seq<Row<C>>, cs: seq<C>, c: C)
    requires c !in cs
    ensures CountIn(rows, cs + [c]) == CountIn(rows, cs) + |Group(rows, c)|
    ensures DifferenceIn(rows, cs + [c]) == DifferenceIn(rows, cs) + Sum(Group(rows, c))
  {
    if rows != [] {
      var n := |rows| - 1;
      OneMoreCluster(rows[..n], cs, c);
      var g := Group(rows, c);
      if Scored(rows[n]) && rows[n].cluster == c {
        assert g[..|g| - 1] == Group(rows[..n], c);
      } else {
        assert g == Group(rows[..n], c);
      }
    }
  }

  lemma {:induction false} NoClusters<C(!new)>(rows: seq<Row<C>>)
    ensures CountIn(rows, []) == 0 && DifferenceIn(rows, []) == 0.0
  {
    if rows != [] { NoClusters(rows[..|rows| - 1]); }
  }

  lemma {:induction false} TotalsIn<C(!new)>(rows: seq<Row<C>>, clusters: seq<C>, totals: seq<Total>)
    requires TotalsOf(rows, clusters, totals) && Distinct(clusters)
    ensures Counts(totals) == CountIn(rows, clusters) && Deltas(totals) == DifferenceIn(rows, clusters)
    decreases |clusters|
  {
    hide Group, Sum, CountIn, DifferenceIn;
    if clusters == [] {
      NoClusters(rows);
    } else {
      var n := |clusters| - 1;
      TotalsIn(rows, clusters[..n], totals[..n]);
      assert clusters == clusters[..n] + [clusters[n]];
      OneMoreCluster(rows, clusters[..n], clusters[n]);
    }
  }

  lemma {:induction false} EveryClusterListed<C(!new)>(rows: seq<Row<C>>, cs: seq<C>)
    requires forall i :: 0 <= i < |rows| && Scored(rows[i]) ==> rows[i].cluster in cs
    ensures CountIn(rows, cs) == ScoredCount(rows)
    ensures DifferenceIn(rows, cs) == CandidateSum(rows) - BaselineSum(rows)
  {
    if rows != [] { EveryClusterListed(rows[..|rows| - 1], cs); }
  }

  /** Grouping loses no question and no difference. */
  lemma TotalsConserve<C(!new)>(rows: seq<Row<C>>, clusters: seq<C>, totals: seq<Total>)
    requires TotalsOf(rows, clusters, totals) && Distinct(clusters) && Populated(totals) && totals != []
    requires forall c :: c in clusters <==> Group(rows, c) != []
    ensures Counts(totals) == ScoredCount(rows) > 0
    ensures Deltas(totals) == CandidateSum(rows) - BaselineSum(rows)
    ensures MeansOf(rows).delta == Deltas(totals) / Counts(totals) as real == PooledMean(totals)
  {
    hide Group, CountIn, DifferenceIn, ScoredCount, CandidateSum, BaselineSum, Counts, Deltas;
    forall i | 0 <= i < |rows| && Scored(rows[i]) ensures rows[i].cluster in clusters {
      GroupNonempty(rows, rows[i].cluster);
    }
    TotalsIn(rows, clusters, totals);
    EveryClusterListed(rows, clusters);
    PooledSigns(totals);
    DivideDifference(CandidateSum(rows), BaselineSum(rows), ScoredCount(rows) as real);
  }

  lemma DivideDifference(a: real, b: real, n: real)
    requires n > 0.0
    ensures a / n - b / n == (a - b) / n
  {
  }

  method BuildTotals<C(==, !new)>(rows: seq<Row<C>>, groups: map<C, seq<real>>, clusters: seq<C>) returns (totals: seq<Total>)
    requires forall c :: Get(groups, c) == Group(rows, c)
    requires forall c :: c in clusters <==> Group(rows, c) != []
    ensures TotalsOf(rows, clusters, totals)
  {
    hide Group, Sum;
    totals := [];
    for i := 0 to |clusters|
      invariant |totals| == i
      invariant forall j :: 0 <= j < i ==> totals[j] == Total(|Group(rows, clusters[j])|, Sum(Group(rows, clusters[j])))
    {
      var g := Get(groups, clusters[i]);
      totals := totals + [Total(|g|, Sum(g))];
    }
  }

  /** `_estimate`. The means are over all scored questions, clusters or not; the interval is the percentile interval of
      the resampled cluster means. For every draw it is ordered, lies between the extreme cluster means, as the point
      does, and keeps a sign that all scored questions share. */
  method EstimateMetric<C(==, !new)>(le: (C, C) -> bool, rows: seq<Row<C>>, resamples: nat, draw: (nat, nat, nat) -> nat,
                                     confidence: real)
      returns (e: Estimate, ghost totals: seq<Total>, ghost means: seq<real>)
    requires TotalOrder(le) && resamples >= 1 && 0.0 < confidence < 1.0
    requires forall r, j, k :: k > 0 ==> draw(r, j, k) < k
    ensures e.NoScored? <==> !SomeScored(rows)
    ensures e.Available? <==> TwoClusters(rows)
    ensures !e.NoScored? ==> ScoredCount(rows) > 0 && e.means == MeansOf(rows)
    ensures e.Available? ==>
              && (exists clusters :: ByCluster(le, rows, clusters, totals)) && e.clusters == |totals|
              && |means| == resamples && (forall r :: 0 <= r < resamples ==> means[r] == PooledMean(Resample(totals, draw, r)))
              && e.lower == Percentile(SortAsc(means), (1.0 - confidence) / 2.0)
              && e.upper == Percentile(SortAsc(means), 1.0 - (1.0 - confidence) / 2.0)
              && Interpolated(SortAsc(means), (1.0 - confidence) / 2.0, e.lower)
              && Interpolated(SortAsc(means), 1.0 - (1.0 - confidence) / 2.0, e.upper)
    ensures e.Available? ==> e.lower <= e.upper
    ensures e.Available? ==>
              forall m, M :: ClusterMeansWithin(rows, m, M) ==> m <= e.lower && e.upper <= M && m <= e.means.delta <= M
    ensures e.Available? && NeverWorse(rows) ==> e.lower >= 0.0
    ensures e.Available? && AlwaysWorse(rows) ==> e.upper < 0.0
  {
    hide TotalOrder, Group, Sum, Scale, Deltas, Counts, MeansWithin, ClusterMeansWithin, SomeScored, TwoClusters, Populated,
      NeverWorse, AlwaysWorse, AllWorse, Within, TotalsOf, Distinct, Percentile, SortAsc, PooledMean, ScoredCount, MeansOf, Interpolated;
    totals, means := [], [];
    var groups := BuildGroups(rows);
    var clusters := Sorted(le, groups.Keys);
    ClusterCount(rows, clusters);
    NoClusterNoPair(rows, clusters);
    if clusters == [] { return NoScored, [], []; }
    var sums := BuildTotals(rows, groups, clusters);
    totals := sums;
    TotalsFacts(rows, clusters, sums);
    TotalsLength(rows, clusters, sums);
    PooledSigns(sums);
    TotalsConserve(rows, clusters, sums);
    var point := MeansOf(rows);
    if |clusters| < 2 { return Insufficient(point), totals, []; }
    var deltas := Bootstrap(sums, resamples, draw);
    means := deltas;
    var lower, upper := Interval(deltas, confidence);
    if NeverWorse(rows) {
      NonnegMeans(sums);
      assert Within(deltas, 0.0, Deltas(sums));
    }
    forall m, M | ClusterMeansWithin(rows, m, M) ensures m <= lower && upper <= M && m <= point.delta <= M {
      assert MeansWithin(sums, m, M);
      assert Within(deltas, m, M);
      PooledWithin(sums, m, M);
      RatioWithin(Deltas(sums), Counts(sums), m, M);
    }
    assert ByCluster(le, rows, clusters, totals);
    e := Available(point, |clusters|, lower, upper);
  }

  /** The totals are those of the scored clusters, each once, in cluster order. */
  ghost predicate ByCluster<C(!new)>(le: (C, C) -> bool, rows: seq<Row<C>>, clusters: seq<C>, totals: seq<Total>) {
    && TotalsOf(rows, clusters, totals) && Distinct(clusters)
    && (forall c :: c in clusters <==> Group(rows, c) != [])
    && (forall i, j :: 0 <= i < j < |clusters| ==> le(clusters[i], clusters[j]))
  }

  lemma NoClusterNoPair<C(!new)>(rows: seq<Row<C>>, clusters: seq<C>)
    ensures TwoClusters(rows) ==> SomeScored(rows)
  {
  }

  lemma TotalsLength<C(!new)>(rows: seq<Row<C>>, clusters: seq<C>, totals: seq<Total>)
    requires TotalsOf(rows, clusters, totals)
    ensures |totals| == |clusters|
  {
  }

  // ---------------------------------------------------------------- the gate

  /** One reported metric of one block ("overall" or a question type). */
  datatype Metric = Metric(category: string, name: string, estimate: Estimate)

  datatype Problem = TooFewConversations(category: string, name: string) | NegativeInterval(category: string, name: string)
                   | NothingScored

  predicate Quality(m: Metric) { m.name != "tokens" }

  /** What `check_regressions` says about one metric. */
  function Complaints(m: Metric): seq<Problem> {
    if !Quality(m) then []
    else match m.estimate
      case NoScored => []
      case Insufficient(_) => [TooFewConversations(m.category, m.name)]
      case Available(_, _, _, upper) => if upper < 0.0 then [NegativeInterval(m.category, m.name)] else []
  }

  /** Exactly the complaints about the metrics, plus `NothingScored` when `scored` is false. */
  ghost predicate Collected(metrics: seq<Metric>, problems: seq<Problem>, scored: bool) {
    && (forall p :: p in problems <==> (p == NothingScored && !scored) || exists m :: m in metrics && p in Complaints(m))
    && (scored <==> exists m :: m in metrics && Quality(m) && !m.estimate.NoScored?)
  }

  ghost predicate Negative(m: Metric, c: string, n: string) {
    Quality(m) && m.category == c && m.name == n && m.estimate.Available? && m.estimate.upper < 0.0
  }

  ghost predicate Thin(m: Metric, c: string, n: string) {
    Quality(m) && m.category == c && m.name == n && m.estimate.Insufficient?
  }

  lemma ComplaintIs(m: Metric, c: string, n: string)
    ensures NegativeInterval(c, n) in Complaints(m) <==> Negative(m, c, n)
    ensures TooFewConversations(c, n) in Complaints(m) <==> Thin(m, c, n)
    ensures NothingScored !in Complaints(m)
  {
  }

  lemma CollectedTells(metrics: seq<Metric>, problems: seq<Problem>, scored: bool)
    requires Collected(metrics, problems, scored)
    ensures forall c, n :: NegativeInterval(c, n) in problems <==> exists m :: m in metrics && Negative(m, c, n)
    ensures forall c, n :: TooFewConversations(c, n) in problems <==> exists m :: m in metrics && Thin(m, c, n)
    ensures NothingScored in problems <==> forall m :: m in metrics && Quality(m) ==> m.estimate.NoScored?
  {
    hide Complaints, Negative, Thin;
    forall c, n, m ensures NegativeInterval(c, n) in Complaints(m) <==> Negative(m, c, n) { ComplaintIs(m, c, n); }
    forall c, n, m ensures TooFewConversations(c, n) in Complaints(m) <==> Thin(m, c, n) { ComplaintIs(m, c, n); }
    forall m ensures NothingScored !in Complaints(m) { ComplaintIs(m, "", ""); }
  }

  method CheckRegressions(metrics: seq<Metric>) returns (problems: seq<Problem>)
    ensures forall c, n :: NegativeInterval(c, n) in problems <==> exists m :: m in metrics && Negative(m, c, n)
    ensures forall c, n :: TooFewConversations(c, n) in problems <==> exists m :: m in metrics && Thin(m, c, n)
    ensures NothingScored in problems <==> forall m :: m in metrics && Quality(m) ==> m.estimate.NoScored?
  {
    problems := [];
    var scored := false;
    for i := 0 to |metrics|
      invariant forall p :: p in problems <==> exists m :: m in metrics[..i] && p in Complaints(m)
      invariant scored <==> exists m :: m in metrics[..i] && Quality(m) && !m.estimate.NoScored?
    {
      var m := metrics[i];
      assert metrics[..i + 1] == metrics[..i] + [m];
      if Quality(m) {
        scored := scored || !m.estimate.NoScored?;
        problems := problems + Complaints(m);
      }
    }
    assert metrics[..|metrics|] == metrics;
    if !scored { problems := problems + [NothingScored]; }
    assert Collected(metrics, problems, scored);
    CollectedTells(metrics, problems, scored);
  }

  /** One metric of one block, with the scores of its questions. */
  datatype Scores<C> = Scores(category: string, name: string, rows: seq<Row<C>>)

  /** What an estimate of these rows says, whatever the draw. */
  ghost predicate Reflects<C(!new)>(rows: seq<Row<C>>, e: Estimate) {
    && (e.NoScored? <==> !SomeScored(rows)) && (e.Available? <==> TwoClusters(rows))
    && (e.Available? && NeverWorse(rows) ==> e.upper >= 0.0) && (e.Available? && AlwaysWorse(rows) ==> e.upper < 0.0)
  }

  /** A whole comparison, every metric estimated with its own draws and all of them gated at once: a metric on which the
      candidate is at least as good on every scored question is never reported as a negative interval, one on which it is
      strictly worse on all of them across two conversations always is; the complaints about too few conversations and
      about nothing scored are exact. Complaints name a category and a metric, so where two blocks share those names (a
      question type may be called "overall") they are judged together. */
  method GateComparison<C(==, !new)>(le: (C, C) -> bool, all: seq<Scores<C>>, resamples: nat,
                                     draw: (nat, nat, nat, nat) -> nat, confidence: real)
      returns (problems: seq<Problem>)
    requires TotalOrder(le) && resamples >= 1 && 0.0 < confidence < 1.0
    requires forall i, r, j, k :: k > 0 ==> draw(i, r, j, k) < k
    ensures forall c, n :: JudgedNegative(all, c, n, NegativeInterval(c, n) in problems)
    ensures forall c, n :: JudgedThin(all, c, n, TooFewConversations(c, n) in problems)
    ensures NothingScored in problems <==> forall s :: s in all && s.name != "tokens" ==> !SomeScored(s.rows)
  {
    hide TotalOrder, Reflects, SomeScored, JudgedNegative, JudgedThin;
    var metrics: seq<Metric> := [];
    for i := 0 to |all|
      invariant |metrics| == i && Estimated(all[..i], metrics)
    {
      var e, _, _ := EstimateMetric(le, all[i].rows, resamples, (r, j, k) => draw(i, r, j, k), confidence);
      ReflectsIs(all[i].rows, e);
      metrics := metrics + [Metric(all[i].category, all[i].name, e)];
      assert all[..i + 1] == all[..i] + [all[i]];
    }
    assert all[..|all|] == all;
    problems := CheckRegressions(metrics);
    GateReads(all, metrics, problems);
  }

  lemma ReflectsIs<C(!new)>(rows: seq<Row<C>>, e: Estimate)
    requires (e.NoScored? <==> !SomeScored(rows)) && (e.Available? <==> TwoClusters(rows))
    requires e.Available? ==> e.lower <= e.upper
    requires e.Available? && NeverWorse(rows) ==> e.lower >= 0.0
    requires e.Available? && AlwaysWorse(rows) ==> e.upper < 0.0
    ensures Reflects(rows, e)
  {
  }

  ghost predicate Estimated<C(!new)>(all: seq<Scores<C>>, metrics: seq<Metric>) {
    && |metrics| == |all|
    && forall i :: 0 <= i < |all| ==>
         metrics[i].category == all[i].category && metrics[i].name == all[i].name && Reflects(all[i].rows, metrics[i].estimate)
  }

  ghost predicate Named<C(!new)>(s: Scores<C>, c: string, n: string) { s.category == c && s.name == n && n != "tokens" }

  /** A negative interval is reported if some metric of that name lost everywhere, and not if all of them lost nowhere. */
  ghost predicate JudgedNegative<C(!new)>(all: seq<Scores<C>>, c: string, n: string, reported: bool) {
    && ((exists s :: s in all && Named(s, c, n) && AlwaysWorse(s.rows) && TwoClusters(s.rows)) ==> reported)
    && ((forall s :: s in all && Named(s, c, n) ==> NeverWorse(s.rows)) ==> !reported)
  }

  /** Too few conversations are reported exactly where some scored metric of that name has only one. */
  ghost predicate JudgedThin<C(!new)>(all: seq<Scores<C>>, c: string, n: string, reported: bool) {
    reported <==> exists s :: s in all && Named(s, c, n) && SomeScored(s.rows) && !TwoClusters(s.rows)
  }

  lemma GateReads<C(!new)>(all: seq<Scores<C>>, metrics: seq<Metric>, problems: seq<Problem>)
    requires Estimated(all, metrics)
    requires forall c, n :: NegativeInterval(c, n) in problems <==> exists m :: m in metrics && Negative(m, c, n)
    requires forall c, n :: TooFewConversations(c, n) in problems <==> exists m :: m in metrics && Thin(m, c, n)
    requires NothingScored in problems <==> forall m :: m in metrics && Quality(m) ==> m.estimate.NoScored?
    ensures forall c, n :: JudgedNegative(all, c, n, NegativeInterval(c, n) in problems)
    ensures forall c, n :: JudgedThin(all, c, n, TooFewConversations(c, n) in problems)
    ensures NothingScored in problems <==> forall s :: s in all && s.name != "tokens" ==> !SomeScored(s.rows)
  {
    hide NeverWorse, AlwaysWorse, TwoClusters, SomeScored;
    forall c, n ensures JudgedNegative(all, c, n, NegativeInterval(c, n) in problems)
    {
      ReadNegative(all, metrics, c, n);
    }
    forall c, n ensures JudgedThin(all, c, n, TooFewConversations(c, n) in problems) {
      ReadThin(all, metrics, c, n);
    }
    forall s | s in all && s.name != "tokens" ensures exists m :: m in metrics && Quality(m) && (m.estimate.NoScored? <==> !SomeScored(s.rows)) {
      var i :| 0 <= i < |all| && all[i] == s;
      assert metrics[i] in metrics;
    }
    forall m | m in metrics && Quality(m) ensures exists s :: s in all && s.name != "tokens" && (m.estimate.NoScored? <==> !SomeScored(s.rows)) {
      var i :| 0 <= i < |metrics| && metrics[i] == m;
      assert all[i] in all;
    }
  }

  lemma ReadNegative<C(!new)>(all: seq<Scores<C>>, metrics: seq<Metric>, c: string, n: string)
    requires Estimated(all, metrics)
    ensures JudgedNegative(all, c, n, exists m :: m in metrics && Negative(m, c, n))
  {
    hide NeverWorse, AlwaysWorse, TwoClusters, SomeScored;
    if s :| s in all && Named(s, c, n) && AlwaysWorse(s.rows) && TwoClusters(s.rows) {
      var i :| 0 <= i < |all| && all[i] == s;
      assert metrics[i] in metrics && Negative(metrics[i], c, n);
    }
    if m :| m in metrics && Negative(m, c, n) {
      var i :| 0 <= i < |metrics| && metrics[i] == m;
      assert all[i] in all && Named(all[i], c, n) && !NeverWorse(all[i].rows);
    }
  }

  lemma ReadThin<C(!new)>(all: seq<Scores<C>>, metrics: seq<Metric>, c: string, n: string)
    requires Estimated(all, metrics)
    ensures JudgedThin(all, c, n, exists m :: m in metrics && Thin(m, c, n))
  {
    hide NeverWorse, AlwaysWorse, TwoClusters, SomeScored;
    if s :| s in all && Named(s, c, n) && SomeScored(s.rows) && !TwoClusters(s.rows) {
      var i :| 0 <= i < |all| && all[i] == s;
      assert metrics[i] in metrics && Thin(metrics[i], c, n);
    }
    if m :| m in metrics && Thin(m, c, n) {
      var i :| 0 <= i < |metrics| && metrics[i] == m;
      assert all[i] in all && Named(all[i], c, n) && SomeScored(all[i].rows) && !TwoClusters(all[i].rows);
    }
  }
}
