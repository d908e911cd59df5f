/** `ranking_metrics` of benchmarks/fact_retrieval.py: recall, reciprocal rank and graded nDCG of one result page.
    The discount 1 / log2(position + 1) enters only as a positive, strictly decreasing function of the position. */
module RankingMetrics {
  import opened Common

  /** One manual relevance judgment. A judgment mapping is a sequence of these with distinct ids, in dict order. */
  datatype Judged<Id> = Judged(id: Id, grade: int)

  ghost predicate IsMapping<Id(!new)>(rel: seq<Judged<Id>>) {
    forall i, j :: 0 <= i < j < |rel| ==> rel[i].id != rel[j].id
  }

  /** Grades are 1..3, as validation enforces. */
  predicate GoodGrades<Id(==)>(rel: seq<Judged<Id>>) {
    forall i :: 0 <= i < |rel| ==> 1 <= rel[i].grade <= 3
  }

  /** `relevant.get(identity, 0)`. */
  function GradeOf<Id(==)>(rel: seq<Judged<Id>>, id: Id): int {
    if rel == [] then 0
    else if rel[|rel| - 1].id == id then rel[|rel| - 1].grade
    else GradeOf(rel[..|rel| - 1], id)
  }

  function GradesOf<Id(==)>(rel: seq<Judged<Id>>, page: seq<Id>): (g: seq<int>)
    ensures |g| == |page|
  {
    if page == [] then [] else GradesOf(rel, page[..|page| - 1]) + [GradeOf(rel, page[|page| - 1])]
  }

  function Values<Id>(rel: seq<Judged<Id>>): (v: seq<int>)
    ensures |v| == |rel|
  {
    if rel == [] then [] else Values(rel[..|rel| - 1]) + [rel[|rel| - 1].grade]
  }

  // ---------------------------------------------------------------- sorting the judgments

  function InsertDesc(s: seq<int>, x: int): seq<int> {
    if s == [] || s[|s| - 1] >= x then s + [x] else InsertDesc(s[..|s| - 1], x) + [s[|s| - 1]]
  }

  /** `sorted(values, reverse=True)`. */
  function SortDesc(s: seq<int>): seq<int> {
    if s == [] then [] else InsertDesc(SortDesc(s[..|s| - 1]), s[|s| - 1])
  }

  ghost predicate Descending(s: seq<int>) { forall i, j :: 0 <= i < j < |s| ==> s[i] >= s[j] }

  ghost predicate AtLeast(s: seq<int>, low: int) { forall i :: 0 <= i < |s| ==> s[i] >= low }

  lemma {:induction false} InsertDescAtLeast(s: seq<int>, x: int, low: int)
    requires AtLeast(s, low) && x >= low
    ensures AtLeast(InsertDesc(s, x), low)
  {
    if s != [] && s[|s| - 1] < x { InsertDescAtLeast(s[..|s| - 1], x, low); }
  }

  lemma {:induction false} InsertDescSorted(s: seq<int>, x: int)
    requires Descending(s)
    ensures Descending(InsertDesc(s, x))
  {
    if s != [] && s[|s| - 1] < x {
      var n := |s| - 1;
      InsertDescSorted(s[..n], x);
      InsertDescAtLeast(s[..n], x, s[n]);
    }
  }

  lemma {:induction false} InsertDescPermutes(s: seq<int>, x: int)
    ensures multiset(InsertDesc(s, x)) == multiset(s) + multiset{x}
  {
    if s != [] && s[|s| - 1] < x {
      var n := |s| - 1;
      InsertDescPermutes(s[..n], x);
      assert s == s[..n] + [s[n]];
    }
  }

  lemma {:induction false} SortDescFacts(s: seq<int>)
    ensures Descending(SortDesc(s)) && multiset(SortDesc(s)) == multiset(s) && |SortDesc(s)| == |s|
  {
    if s != [] {
      var n := |s| - 1;
      SortDescFacts(s[..n]);
      InsertDescSorted(SortDesc(s[..n]), s[n]);
      InsertDescPermutes(SortDesc(s[..n]), s[n]);
      assert s == s[..n] + [s[n]];
      assert |multiset(SortDesc(s))| == |multiset(s)|;
    }
  }

  // ---------------------------------------------------------------- discounted gain, in layers

  function Pow2(n: nat): nat { if n == 0 then 1 else 2 * Pow2(n - 1) }

  function Gain(grade: int): real
    requires grade >= 0
  {
    Pow2(grade) as real - 1.0
  }

  ghost predicate Discount(d: nat -> real) {
    (forall i :: d(i) > 0.0) && (forall i, j :: i < j ==> d(i) > d(j))
  }

  ghost predicate Graded(g: seq<int>) { forall i :: 0 <= i < |g| ==> 0 <= g[i] <= 3 }

  /** Sum over positions of gain times discount. */
  function Dcg(d: nat -> real, g: seq<int>): real
    requires forall i :: 0 <= i < |g| ==> g[i] >= 0
  {
    if g == [] then 0.0 else Dcg(d, g[..|g| - 1]) + Gain(g[|g| - 1]) * d(|g| - 1)
  }

  /** Positions graded at least `t`. */
  function Count(g: seq<int>, t: int): nat {
    if g == [] then 0 else Count(g[..|g| - 1], t) + (if g[|g| - 1] >= t then 1 else 0)
  }

  /** Discount collected by the positions graded at least `t`. */
  function Layer(d: nat -> real, g: seq<int>, t: int): real {
    if g == [] then 0.0 else Layer(d, g[..|g| - 1], t) + (if g[|g| - 1] >= t then d(|g| - 1) else 0.0)
  }

  function FirstDiscounts(d: nat -> real, c: nat): real {
    if c == 0 then 0.0 else FirstDiscounts(d, c - 1) + d(c - 1)
  }

  /** The positions graded at least `t` are exactly the first ones. */
  ghost predicate TopHeavy(g: seq<int>, t: int) {
    forall i :: 0 <= i < |g| ==> (g[i] >= t <==> i < Count(g, t))
  }

  lemma {:induction false} DcgInLayers(d: nat -> real, g: seq<int>)
    requires Graded(g)
    ensures Dcg(d, g) == Layer(d, g, 1) + 2.0 * Layer(d, g, 2) + 4.0 * Layer(d, g, 3)
  {
    if g != [] {
      var n := |g| - 1;
      DcgInLayers(d, g[..n]);
      GainInLayers(g[n]);
    }
  }

  lemma GainInLayers(x: int)
    requires 0 <= x <= 3
    ensures Gain(x) == (if x >= 1 then 1.0 else 0.0) + (if x >= 2 then 2.0 else 0.0) + (if x >= 3 then 4.0 else 0.0)
  {
    assert Pow2(1) == 2 && Pow2(2) == 4 && Pow2(3) == 8;
  }

  lemma {:induction false} CountBound(g: seq<int>, t: int)
    ensures Count(g, t) <= |g|
  {
    if g != [] { CountBound(g[..|g| - 1], t); }
  }

  /** A layer is worth at most as many leading discounts as it has positions, exactly that only at the top. */
  lemma {:induction false} LayerBound(d: nat -> real, g: seq<int>, t: int)
    requires Discount(d)
    ensures Layer(d, g, t) <= FirstDiscounts(d, Count(g, t))
    ensures Layer(d, g, t) == FirstDiscounts(d, Count(g, t)) <==> TopHeavy(g, t)
  {
    if g != [] {
      var n := |g| - 1;
      var h := g[..n];
      LayerBound(d, h, t);
      CountBound(h, t);
      TopHeavyCons(g, t);
      assert Count(h, t) < n ==> d(Count(h, t)) > d(n);
    }
  }

  lemma TopHeavyCons(g: seq<int>, t: int)
    requires g != []
    ensures var n := |g| - 1; var h := g[..n];
            TopHeavy(g, t) <==> TopHeavy(h, t) && (g[n] >= t ==> Count(h, t) == n)
  {
    var n := |g| - 1;
    var h := g[..n];
    CountBound(h, t);
    if TopHeavy(g, t) {
      if g[n] >= t { AllCount(g, t, Count(g, t)); }
      forall i | 0 <= i < n ensures h[i] >= t <==> i < Count(h, t) { assert h[i] == g[i]; }
    }
    if TopHeavy(h, t) && (g[n] >= t ==> Count(h, t) == n) {
      forall i | 0 <= i < |g| ensures g[i] >= t <==> i < Count(g, t) { assert i < n ==> h[i] == g[i]; }
    }
  }

  /** A known top determines the count. */
  lemma {:induction false} AllCount(g: seq<int>, t: int, c: nat)
    requires c <= |g| && forall i :: 0 <= i < |g| ==> (g[i] >= t <==> i < c)
    ensures Count(g, t) == c
  {
    if g != [] {
      var n := |g| - 1;
      forall i | 0 <= i < n ensures g[..n][i] >= t <==> i < (if c <= n then c else n) { assert g[..n][i] == g[i]; }
      AllCount(g[..n], t, if c <= n then c else n);
    }
  }

  lemma {:induction false} FirstDiscountsMonotone(d: nat -> real, a: nat, b: nat)
    requires Discount(d) && a <= b
    ensures FirstDiscounts(d, a) <= FirstDiscounts(d, b)
    ensures a < b ==> FirstDiscounts(d, a) < FirstDiscounts(d, b)
    decreases b - a
  {
    if a < b { FirstDiscountsMonotone(d, a, b - 1); }
  }

  lemma {:induction false} DescendingIsTopHeavy(g: seq<int>, t: int)
    requires Descending(g)
    ensures TopHeavy(g, t)
  {
    if g != [] {
      var n := |g| - 1;
      assert Descending(g[..n]);
      DescendingIsTopHeavy(g[..n], t);
      if g[n] >= t { AllCount(g[..n], t, n); }
      TopHeavyCons(g, t);
    }
  }

  // ---------------------------------------------------------------- the bound

  /** The grade shown at a position, zero past the end. */
  function At(g: seq<int>, i: nat): int { if i < |g| then g[i] else 0 }

  /** Two pages carry the same grade sequence, up to trailing zero-gain results. */
  ghost predicate SameGrades(g: seq<int>, h: seq<int>) { forall i: nat :: At(g, i) == At(h, i) }

  /** `h` is the best a page can do: sorted, and with at least as many results at every level. */
  ghost predicate Dominates(h: seq<int>, g: seq<int>) {
    Descending(h) && forall t :: 1 <= t <= 3 ==> Count(g, t) <= Count(h, t)
  }

  lemma LayerOrder(d: nat -> real, g: seq<int>, h: seq<int>, t: int)
    requires Discount(d) && Dominates(h, g) && 1 <= t <= 3
    ensures Layer(d, g, t) <= Layer(d, h, t)
    ensures Layer(d, g, t) == Layer(d, h, t) <==> TopHeavy(g, t) && Count(g, t) == Count(h, t)
  {
    LayerBound(d, g, t);
    LayerBound(d, h, t);
    DescendingIsTopHeavy(h, t);
    FirstDiscountsMonotone(d, Count(g, t), Count(h, t));
  }

  ghost predicate SameLayer(g: seq<int>, h: seq<int>, t: int) { TopHeavy(g, t) && Count(g, t) == Count(h, t) }

  lemma SameGradesIff(g: seq<int>, h: seq<int>)
    requires Graded(g) && Graded(h) && Descending(h)
    ensures SameGrades(g, h) <==> SameLayer(g, h, 1) && SameLayer(g, h, 2) && SameLayer(g, h, 3)
  {
    forall t | 1 <= t <= 3 ensures TopHeavy(h, t) && Count(g, t) <= |g| && Count(h, t) <= |h| {
      DescendingIsTopHeavy(h, t);
      CountBound(g, t);
      CountBound(h, t);
    }
    if SameGrades(g, h) {
      forall t | 1 <= t <= 3 ensures SameLayer(g, h, t) { SameGradesSameLayer(g, h, t); }
    }
    if SameLayer(g, h, 1) && SameLayer(g, h, 2) && SameLayer(g, h, 3) {
      forall i: nat ensures At(g, i) == At(h, i) {
        forall t | 1 <= t <= 3 ensures At(g, i) >= t <==> i < Count(h, t) { AtLayer(g, t, i); AtLayer(h, t, i); }
        AtLayer(h, 1, i);
        AtLayer(h, 2, i);
        AtLayer(h, 3, i);
      }
    }
  }

  lemma AtLayer(g: seq<int>, t: int, i: nat)
    requires TopHeavy(g, t) && t >= 1
    ensures At(g, i) >= t <==> i < Count(g, t)
  {
    CountBound(g, t);
  }

  lemma SameGradesSameLayer(g: seq<int>, h: seq<int>, t: int)
    requires SameGrades(g, h) && TopHeavy(h, t) && t >= 1
    ensures SameLayer(g, h, t)
  {
    var c := Count(h, t);
    forall i: nat ensures At(g, i) >= t <==> i < c { AtLayer(h, t, i); }
    assert c > 0 ==> At(g, c - 1) >= t;
    forall i | 0 <= i < |g| ensures g[i] >= t <==> i < c { assert At(g, i) == g[i]; }
    AllCount(g, t, c);
  }

  /** The rearrangement bound, with its equality case. */
  lemma DcgBound(d: nat -> real, g: seq<int>, h: seq<int>)
    requires Discount(d) && Graded(g) && Graded(h) && Dominates(h, g)
    ensures Dcg(d, g) <= Dcg(d, h)
    ensures Dcg(d, g) == Dcg(d, h) <==> SameGrades(g, h)
  {
    hide Discount, Dominates, SameGrades, Layer, Dcg, TopHeavy;
    DcgInLayers(d, g);
    DcgInLayers(d, h);
    LayerOrder(d, g, h, 1);
    LayerOrder(d, g, h, 2);
    LayerOrder(d, g, h, 3);
    DominatesIsDescending(g, h);
    SameGradesIff(g, h);
  }

  lemma DominatesIsDescending(g: seq<int>, h: seq<int>)
    requires Dominates(h, g)
    ensures Descending(h)
  {
  }

  // ---------------------------------------------------------------- a page against its judgments

  /** The ids judged at least `t`. */
  ghost function JudgedAtLeast<Id(!new)>(rel: seq<Judged<Id>>, t: int): set<Id> {
    if rel == [] then {}
    else JudgedAtLeast(rel[..|rel| - 1], t) + (if rel[|rel| - 1].grade >= t then {rel[|rel| - 1].id} else {})
  }

  ghost function ShownAtLeast<Id(!new)>(rel: seq<Judged<Id>>, page: seq<Id>, t: int): set<Id> {
    set id | id in page && GradeOf(rel, id) >= t
  }

  lemma {:induction false} JudgedAre<Id(!new)>(rel: seq<Judged<Id>>, t: int, id: Id)
    requires IsMapping(rel) && t >= 1
    ensures id in JudgedAtLeast(rel, t) <==> GradeOf(rel, id) >= t
    ensures (exists i :: 0 <= i < |rel| && rel[i].id == id) <== id in JudgedAtLeast(rel, t)
    ensures (forall i :: 0 <= i < |rel| ==> rel[i].id != id) ==> GradeOf(rel, id) == 0
  {
    if rel != [] {
      var n := |rel| - 1;
      assert forall i :: 0 <= i < n ==> rel[..n][i] == rel[i];
      JudgedAre(rel[..n], t, id);
    }
  }

  lemma LastJudgedIsNew<Id(!new)>(rel: seq<Judged<Id>>, t: int)
    requires IsMapping(rel) && t >= 1 && rel != []
    ensures var n := |rel| - 1; IsMapping(rel[..n]) && rel[n].id !in JudgedAtLeast(rel[..n], t)
  {
    var n := |rel| - 1;
    assert forall i :: 0 <= i < n ==> rel[..n][i] == rel[i];
    assert IsMapping(rel[..n]);
    JudgedAre(rel[..n], t, rel[n].id);
  }

  lemma AddOne<T>(a: set<T>, x: T)
    requires x !in a
    ensures |a + {x}| == |a| + 1
  {
  }

  lemma ValuesCount<Id>(rel: seq<Judged<Id>>, t: int)
    requires rel != []
    ensures var n := |rel| - 1;
            Count(Values(rel), t) == Count(Values(rel[..n]), t) + (if rel[n].grade >= t then 1 else 0)
  {
    assert Values(rel)[..|rel| - 1] == Values(rel[..|rel| - 1]);
  }

  lemma {:induction false} JudgedCount<Id(!new)>(rel: seq<Judged<Id>>, t: int)
    requires IsMapping(rel) && t >= 1
    ensures |JudgedAtLeast(rel, t)| == Count(Values(rel), t)
  {
    hide IsMapping, GradeOf;
    if rel != [] {
      var n := |rel| - 1;
      LastJudgedIsNew(rel, t);
      JudgedCount(rel[..n], t);
      ValuesCount(rel, t);
      AddOne(JudgedAtLeast(rel[..n], t), rel[n].id);
    }
  }

  lemma GradesCount<Id(!new)>(rel: seq<Judged<Id>>, page: seq<Id>, t: int)
    requires page != []
    ensures var n := |page| - 1;
            Count(GradesOf(rel, page), t)
            == Count(GradesOf(rel, page[..n]), t) + (if GradeOf(rel, page[n]) >= t then 1 else 0)
  {
    assert GradesOf(rel, page)[..|page| - 1] == GradesOf(rel, page[..|page| - 1]);
  }

  lemma ShownLast<Id(!new)>(rel: seq<Judged<Id>>, page: seq<Id>, t: int)
    requires Distinct(page) && page != []
    ensures var n := |page| - 1;
            && Distinct(page[..n]) && page[n] !in ShownAtLeast(rel, page[..n], t)
            && ShownAtLeast(rel, page, t)
               == if GradeOf(rel, page[n]) >= t then ShownAtLeast(rel, page[..n], t) + {page[n]}
                  else ShownAtLeast(rel, page[..n], t)
  {
    hide GradeOf;
    var n := |page| - 1;
    assert page == page[..n] + [page[n]];
  }

  lemma {:induction false} ShownCount<Id(!new)>(rel: seq<Judged<Id>>, page: seq<Id>, t: int)
    requires Distinct(page)
    ensures |ShownAtLeast(rel, page, t)| == Count(GradesOf(rel, page), t)
  {
    hide Distinct, GradeOf;
    if page == [] {
      assert ShownAtLeast(rel, page, t) == {};
    } else {
      var n := |page| - 1;
      ShownLast(rel, page, t);
      ShownCount(rel, page[..n], t);
      GradesCount(rel, page, t);
      AddOne(ShownAtLeast(rel, page[..n], t), page[n]);
    }
  }

  /** A duplicate-free page shows no more results of a level than there are judgments of it. */
  lemma PageCount<Id(!new)>(rel: seq<Judged<Id>>, page: seq<Id>, t: int)
    requires IsMapping(rel) && Distinct(page) && t >= 1
    ensures Count(GradesOf(rel, page), t) <= Count(Values(rel), t)
  {
    ShownCount(rel, page, t);
    JudgedCount(rel, t);
    forall id | id in ShownAtLeast(rel, page, t) ensures id in JudgedAtLeast(rel, t) { JudgedAre(rel, t, id); }
    SubsetSize(ShownAtLeast(rel, page, t), JudgedAtLeast(rel, t));
  }

  lemma {:induction false} InsertDescCount(s: seq<int>, x: int, t: int)
    ensures Count(InsertDesc(s, x), t) == Count(s, t) + (if x >= t then 1 else 0)
  {
    var r := InsertDesc(s, x);
    if s == [] || s[|s| - 1] >= x {
      assert r[..|r| - 1] == s;
    } else {
      InsertDescCount(s[..|s| - 1], x, t);
      assert r[..|r| - 1] == InsertDesc(s[..|s| - 1], x);
    }
  }

  lemma {:induction false} SortDescCount(s: seq<int>, t: int)
    ensures Count(SortDesc(s), t) == Count(s, t)
  {
    if s != [] {
      SortDescCount(s[..|s| - 1], t);
      InsertDescCount(SortDesc(s[..|s| - 1]), s[|s| - 1], t);
    }
  }

  function Take<T>(s: seq<T>, k: nat): seq<T> { if k <= |s| then s[..k] else s }

  /** The ideal page: the judged grades, best first, cut at `k`. */
  function IdealGrades<Id>(rel: seq<Judged<Id>>, k: nat): seq<int> { Take(SortDesc(Values(rel)), k) }

  lemma TakeCount(h: seq<int>, k: nat, t: int)
    requires Descending(h)
    ensures Count(Take(h, k), t) == if Count(h, t) <= k then Count(h, t) else k
  {
    DescendingIsTopHeavy(h, t);
    CountBound(h, t);
    if k <= |h| {
      forall i | 0 <= i < k ensures h[..k][i] >= t <==> i < (if Count(h, t) <= k then Count(h, t) else k) {
        assert h[..k][i] == h[i];
      }
      AllCount(h[..k], t, if Count(h, t) <= k then Count(h, t) else k);
    }
  }

  lemma IdealDominates<Id(!new)>(rel: seq<Judged<Id>>, page: seq<Id>, k: nat)
    requires IsMapping(rel) && Distinct(page) && |page| <= k
    ensures Dominates(IdealGrades(rel, k), GradesOf(rel, page))
  {
    var h := SortDesc(Values(rel));
    SortDescFacts(Values(rel));
    assert Descending(Take(h, k));
    forall t | 1 <= t <= 3 ensures Count(GradesOf(rel, page), t) <= Count(IdealGrades(rel, k), t) {
      TakeCount(h, k, t);
      SortDescCount(Values(rel), t);
      PageCount(rel, page, t);
      CountBound(GradesOf(rel, page), t);
    }
  }

  lemma {:induction false} GradesAreGraded<Id(!new)>(rel: seq<Judged<Id>>, page: seq<Id>)
    requires GoodGrades(rel)
    ensures Graded(GradesOf(rel, page))
  {
    if page != [] {
      GradesAreGraded(rel, page[..|page| - 1]);
      GradeIsGraded(rel, page[|page| - 1]);
    }
  }

  lemma {:induction false} GradeIsGraded<Id(!new)>(rel: seq<Judged<Id>>, id: Id)
    requires GoodGrades(rel)
    ensures 0 <= GradeOf(rel, id) <= 3
    ensures GradeOf(rel, id) > 0 <==> exists i :: 0 <= i < |rel| && rel[i].id == id
  {
    if rel != [] { GradeIsGraded(rel[..|rel| - 1], id); }
  }

  ghost predicate Positive(s: seq<int>) { forall i :: 0 <= i < |s| ==> 1 <= s[i] <= 3 }

  lemma {:induction false} InsertDescPositive(s: seq<int>, x: int)
    requires Positive(s) && 1 <= x <= 3
    ensures Positive(InsertDesc(s, x))
  {
    if s != [] && s[|s| - 1] < x { InsertDescPositive(s[..|s| - 1], x); }
  }

  lemma {:induction false} SortDescPositive(s: seq<int>)
    requires Positive(s)
    ensures Positive(SortDesc(s))
  {
    if s != [] {
      SortDescPositive(s[..|s| - 1]);
      InsertDescPositive(SortDesc(s[..|s| - 1]), s[|s| - 1]);
    }
  }

  lemma IdealIsGraded<Id(!new)>(rel: seq<Judged<Id>>, k: nat)
    requires GoodGrades(rel)
    ensures Graded(IdealGrades(rel, k)) && AtLeast(IdealGrades(rel, k), 1)
  {
    ValuesAre(rel);
    SortDescPositive(Values(rel));
  }

  lemma {:induction false} ValuesAre<Id(!new)>(rel: seq<Judged<Id>>)
    ensures forall i :: 0 <= i < |rel| ==> Values(rel)[i] == rel[i].grade
  {
    if rel != [] { ValuesAre(rel[..|rel| - 1]); }
  }

  lemma {:induction false} DcgNonneg(d: nat -> real, g: seq<int>)
    requires Discount(d) && Graded(g)
    ensures Dcg(d, g) >= 0.0
    ensures g != [] && AtLeast(g, 1) ==> Dcg(d, g) > 0.0
  {
    if g != [] {
      var n := |g| - 1;
      DcgNonneg(d, g[..n]);
      GainInLayers(g[n]);
      assert Gain(g[n]) * d(n) >= 0.0;
      assert g[n] >= 1 ==> Gain(g[n]) * d(n) > 0.0;
    }
  }

  // ---------------------------------------------------------------- the metrics

  datatype Metrics = Metrics(recall: real, mrr: real, ndcg: real) | Undefined

  datatype Result = Ok(metrics: Metrics) | ValueError

  const MAX_K := 1000
  const MAX_DOCUMENTS := 1000

  /** Results on the page with a judgment. */
  function Matched<Id(==)>(rel: seq<Judged<Id>>, page: seq<Id>): nat {
    Count(GradesOf(rel, page), 1)
  }

  /** One over the position of the first judged result, zero if there is none. */
  function ReciprocalRank<Id(==)>(rel: seq<Judged<Id>>, page: seq<Id>, skipped: nat): real {
    if page == [] then 0.0
    else if GradeOf(rel, page[0]) >= 1 then 1.0 / (skipped + 1) as real
    else ReciprocalRank(rel, page[1..], skipped + 1)
  }

  predicate HasDuplicate<Id(==)>(s: seq<Id>) {
    s != [] && (s[|s| - 1] in s[..|s| - 1] || HasDuplicate(s[..|s| - 1]))
  }

  lemma {:induction false} NoDuplicateIsDistinct<Id(!new)>(s: seq<Id>)
    ensures HasDuplicate(s) <==> !Distinct(s)
  {
    if s != [] {
      var n := |s| - 1;
      NoDuplicateIsDistinct(s[..n]);
      if s[n] in s[..n] {
        var i :| 0 <= i < n && s[..n][i] == s[n];
        assert s[i] == s[n];
      }
      if !Distinct(s[..n]) {
        var i, j :| 0 <= i < j < n && s[..n][i] == s[..n][j];
        assert s[i] == s[j];
      }
    }
  }

  function Clamp(x: real): real { if x < 0.0 then 0.0 else if x > 1.0 then 1.0 else x }

  /** `ranking_metrics`. `validId` stands for the identifier check, `rel` for the judgment mapping. */
  function RankingMetrics<Id(==, !new)>(d: nat -> real, validId: Id -> bool, ranked: seq<Id>, rel: seq<Judged<Id>>, k: int): Result
    requires Discount(d)
  {
    if !(1 <= k <= MAX_K) || |ranked| > MAX_DOCUMENTS || |rel| > MAX_DOCUMENTS then ValueError
    else if (exists i :: 0 <= i < |ranked| && !validId(ranked[i])) || HasDuplicate(ranked) then ValueError
    else if (exists i :: 0 <= i < |rel| && !validId(rel[i].id)) || !GoodGrades(rel) then ValueError
    else if rel == [] then Ok(Undefined)
    else
      var page := Take(ranked, k);
      GradesAreGraded(rel, page);
      IdealIsGraded(rel, k);
      DcgNonneg(d, IdealGrades(rel, k));
      SortDescFacts(Values(rel));
      var ideal := Dcg(d, IdealGrades(rel, k));
      Ok(Metrics(Matched(rel, page) as real / |rel| as real, ReciprocalRank(rel, page, 0),
                 Clamp(Dcg(d, GradesOf(rel, page)) / ideal)))
  }

  ghost predicate IsJudged<Id(!new)>(rel: seq<Judged<Id>>, id: Id) { exists i :: 0 <= i < |rel| && rel[i].id == id }

  /** Results are refused exactly for a bad `k`, an oversized or invalid or repeated identity list, or oversized or
      invalid judgments; without judgments the metrics are undefined. */
  lemma OutcomeIff<Id(!new)>(d: nat -> real, validId: Id -> bool, ranked: seq<Id>, rel: seq<Judged<Id>>, k: int)
    requires Discount(d)
    ensures var r := RankingMetrics(d, validId, ranked, rel, k);
            && (r.Ok? <==>
                  && 1 <= k <= 1000 && |ranked| <= 1000 && |rel| <= 1000 && Distinct(ranked)
                  && (forall i :: 0 <= i < |ranked| ==> validId(ranked[i]))
                  && (forall i :: 0 <= i < |rel| ==> validId(rel[i].id) && 1 <= rel[i].grade <= 3))
            && (r.Ok? ==> (r.metrics.Undefined? <==> rel == []))
  {
    NoDuplicateIsDistinct(ranked);
  }

  /** A judged id has its own grade, any other id grade zero. */
  lemma {:induction false} GradeOfIs<Id(!new)>(rel: seq<Judged<Id>>, id: Id)
    requires IsMapping(rel)
    ensures forall i :: 0 <= i < |rel| && rel[i].id == id ==> GradeOf(rel, id) == rel[i].grade
    ensures !IsJudged(rel, id) ==> GradeOf(rel, id) == 0
  {
    if rel != [] {
      var n := |rel| - 1;
      GradeOfIs(rel[..n], id);
      if rel[n].id != id {
        forall i | 0 <= i < |rel| && rel[i].id == id ensures GradeOf(rel, id) == rel[i].grade {
          assert rel[..n][i] == rel[i];
        }
      }
      if !IsJudged(rel, id) {
        assert rel[n].id != id && forall j :: 0 <= j < n ==> rel[..n][j] == rel[j];
      }
    }
  }

  lemma {:induction false} GradesOfIs<Id(!new)>(rel: seq<Judged<Id>>, page: seq<Id>)
    ensures forall i :: 0 <= i < |page| ==> GradesOf(rel, page)[i] == GradeOf(rel, page[i])
  {
    if page != [] { GradesOfIs(rel, page[..|page| - 1]); }
  }

  /** The gains of the grades 0 to 3 are 0, 1, 3 and 7. */
  lemma GainIs(x: int)
    requires 0 <= x <= 3
    ensures Gain(x) == if x == 0 then 0.0 else if x == 1 then 1.0 else if x == 2 then 3.0 else 7.0
  {
    GainInLayers(x);
  }

  /** Each position adds its gain times its discount. */
  lemma DcgAppend(d: nat -> real, g: seq<int>, x: int)
    requires Graded(g) && 0 <= x <= 3
    ensures Dcg(d, []) == 0.0 && Graded(g + [x]) && Dcg(d, g + [x]) == Dcg(d, g) + Gain(x) * d(|g|)
  {
    hide Gain, Dcg;
    var h := g + [x];
    DcgLast(d, h);
    NoGain(d);
    assert h[..|g|] == g && h[|g|] == x;
  }

  lemma DcgLast(d: nat -> real, h: seq<int>)
    requires h != [] && forall i :: 0 <= i < |h| ==> h[i] >= 0
    ensures Dcg(d, h) == Dcg(d, h[..|h| - 1]) + Gain(h[|h| - 1]) * d(|h| - 1)
  {
    hide Gain;
  }

  lemma NoGain(d: nat -> real)
    ensures Dcg(d, []) == 0.0
  {
  }

  // ---------------------------------------------------------------- the ideal page exists

  function InsertJudged<Id>(s: seq<Judged<Id>>, x: Judged<Id>): seq<Judged<Id>> {
    if s == [] || s[|s| - 1].grade >= x.grade then s + [x] else InsertJudged(s[..|s| - 1], x) + [s[|s| - 1]]
  }

  function SortJudged<Id>(rel: seq<Judged<Id>>): seq<Judged<Id>> {
    if rel == [] then [] else InsertJudged(SortJudged(rel[..|rel| - 1]), rel[|rel| - 1])
  }

  lemma ValuesAppend<Id>(s: seq<Judged<Id>>, x: Judged<Id>)
    ensures Values(s + [x]) == Values(s) + [x.grade]
  {
    assert (s + [x])[..|s|] == s;
  }

  lemma {:induction false} InsertJudgedValues<Id(!new)>(s: seq<Judged<Id>>, x: Judged<Id>)
    ensures Values(InsertJudged(s, x)) == InsertDesc(Values(s), x.grade)
  {
    ValuesAppend(s, x);
    if s != [] {
      var n := |s| - 1;
      ValuesAppend(s[..n], s[n]);
      assert s == s[..n] + [s[n]] && Values(s)[..n] == Values(s[..n]);
      hide Values;
      if s[n].grade < x.grade {
        InsertJudgedValues(s[..n], x);
        ValuesAppend(InsertJudged(s[..n], x), s[n]);
      }
    }
  }

  lemma {:induction false} InsertJudgedPermutes<Id(!new)>(s: seq<Judged<Id>>, x: Judged<Id>)
    ensures multiset(InsertJudged(s, x)) == multiset(s) + multiset{x}
  {
    if s != [] && s[|s| - 1].grade < x.grade {
      var n := |s| - 1;
      InsertJudgedPermutes(s[..n], x);
      assert s == s[..n] + [s[n]];
    }
  }

  lemma {:induction false} SortJudgedIs<Id(!new)>(rel: seq<Judged<Id>>)
    ensures Values(SortJudged(rel)) == SortDesc(Values(rel)) && multiset(SortJudged(rel)) == multiset(rel)
  {
    if rel != [] {
      var n := |rel| - 1;
      SortJudgedIs(rel[..n]);
      InsertJudgedValues(SortJudged(rel[..n]), rel[n]);
      InsertJudgedPermutes(SortJudged(rel[..n]), rel[n]);
      assert rel == rel[..n] + [rel[n]] && Values(rel)[..n] == Values(rel[..n]) && Values(rel)[n] == rel[n].grade;
      hide InsertJudged, InsertDesc, Values;
    }
  }

  lemma {:induction false} MappingByCount<Id(!new)>(rel: seq<Judged<Id>>, s: seq<Judged<Id>>)
    requires IsMapping(rel) && multiset(s) == multiset(rel)
    ensures IsMapping(s) && forall j :: j in s <==> j in rel
  {
    forall j ensures j in s <==> j in rel { assert j in multiset(s) <==> j in multiset(rel); }
    forall i, j | 0 <= i < j < |s| ensures s[i].id != s[j].id {
      assert s[i] in rel && s[j] in rel;
      var a :| 0 <= a < |rel| && rel[a] == s[i];
      var b :| 0 <= b < |rel| && rel[b] == s[j];
      if a == b { TwiceCounted(s, i, j); OnceCounted(rel, a); }
    }
  }

  lemma TwiceCounted<T>(s: seq<T>, i: nat, j: nat)
    requires i < j < |s| && s[i] == s[j]
    ensures multiset(s)[s[i]] >= 2
  {
    assert s == s[..j] + [s[j]] + s[j + 1..];
    assert s[i] in s[..j];
  }

  lemma {:induction false} OnceCounted<Id(!new)>(rel: seq<Judged<Id>>, a: nat)
    requires IsMapping(rel) && a < |rel|
    ensures multiset(rel)[rel[a]] == 1
  {
    assert rel == rel[..a] + [rel[a]] + rel[a + 1..];
    assert rel[a] !in rel[..a] && rel[a] !in rel[a + 1..];
  }

  /** The ideal is no mere bound: the judged ids, best first and cut at `k`, are a page that carries exactly it. */
  lemma IdealIsReached<Id(!new)>(rel: seq<Judged<Id>>, k: nat) returns (page: seq<Id>)
    requires IsMapping(rel)
    ensures Distinct(page) && |page| <= k && GradesOf(rel, page) == IdealGrades(rel, k)
    ensures forall id :: id in page ==> IsJudged(rel, id)
  {
    var s := SortJudged(rel);
    SortJudgedIs(rel);
    MappingByCount(rel, s);
    IdealIsCut(rel, k);
    hide SortJudged, IdealGrades, GradesOf, Values, SortDesc, IsJudged, IsMapping, Distinct;
    page := FirstIds(s, k);
    BestGrades(rel, s, page);
  }

  lemma FirstIds<Id(!new)>(s: seq<Judged<Id>>, k: nat) returns (page: seq<Id>)
    requires IsMapping(s)
    ensures Distinct(page) && |page| == (if k <= |s| then k else |s|) && forall i :: 0 <= i < |page| ==> page[i] == s[i].id
  {
    page := seq(if k <= |s| then k else |s|, i requires 0 <= i < |s| => s[i].id);
  }

  lemma BestGrades<Id(!new)>(rel: seq<Judged<Id>>, s: seq<Judged<Id>>, page: seq<Id>)
    requires IsMapping(rel) && |page| <= |s| && (forall i :: 0 <= i < |page| ==> page[i] == s[i].id) && forall j :: j in s ==> j in rel
    ensures GradesOf(rel, page) == Values(s)[..|page|] && forall id :: id in page ==> IsJudged(rel, id)
  {
    ValuesAre(s);
    GradesOfIs(rel, page);
    hide GradesOf, Values, GradeOf, IsJudged, IsMapping;
    forall i | 0 <= i < |page| ensures GradeOf(rel, page[i]) == s[i].grade && IsJudged(rel, page[i]) {
      assert s[i] in s;
      OwnGrade(rel, s[i]);
    }
  }

  lemma OwnGrade<Id(!new)>(rel: seq<Judged<Id>>, j: Judged<Id>)
    requires IsMapping(rel) && j in rel
    ensures GradeOf(rel, j.id) == j.grade && IsJudged(rel, j.id)
  {
    var a :| 0 <= a < |rel| && rel[a] == j;
    GradeOfIs(rel, j.id);
  }

  /** The judged grades, best first, cut at `k`. */
  ghost predicate IsIdeal<Id(!new)>(rel: seq<Judged<Id>>, k: nat, ideal: seq<int>) {
    exists full :: Descending(full) && multiset(full) == multiset(Values(rel)) && ideal == if k <= |full| then full[..k] else full
  }

  /** The share of the judged ids that the page shows; all of them exactly when it is one. */
  ghost predicate IsRecall<Id(!new)>(rel: seq<Judged<Id>>, page: seq<Id>, x: real) {
    && 0.0 <= x <= 1.0 && x * |rel| as real == |set id | id in page && IsJudged(rel, id)| as real
    && (x == 1.0 <==> forall i :: 0 <= i < |rel| ==> rel[i].id in page)
  }

  /** One over the position of the first judged id; zero exactly when there is none. */
  ghost predicate IsReciprocalRank<Id(!new)>(rel: seq<Judged<Id>>, page: seq<Id>, x: real) {
    && (x == 0.0 <==> forall i :: 0 <= i < |page| ==> !IsJudged(rel, page[i]))
    && forall i :: 0 <= i < |page| && IsJudged(rel, page[i]) && (forall j :: 0 <= j < i ==> !IsJudged(rel, page[j])) ==>
         x == 1.0 / (i + 1) as real
  }

  /** What the metrics mean. nDCG needs no clamp, and is 1 exactly when the page carries the ideal grade sequence, the
      judged grades best first and cut at `k`. Recall counts the judged ids on the page against all of them, and is 1
      exactly when every judged id is shown. The reciprocal rank is one over the position of the first judged id, and zero
      exactly when there is none. */
  lemma MetricsMeanWhatTheySay<Id(!new)>(d: nat -> real, validId: Id -> bool, ranked: seq<Id>, rel: seq<Judged<Id>>, k: int)
    requires Discount(d) && IsMapping(rel)
    requires RankingMetrics(d, validId, ranked, rel, k).Ok? && RankingMetrics(d, validId, ranked, rel, k).metrics.Metrics?
    ensures var m := RankingMetrics(d, validId, ranked, rel, k).metrics;
            var page, ideal := if k <= |ranked| then ranked[..k] else ranked, IdealGrades(rel, k);
            && IsIdeal(rel, k, ideal) && Graded(GradesOf(rel, page)) && Graded(ideal) && Dcg(d, ideal) > 0.0
            && m.ndcg == Dcg(d, GradesOf(rel, page)) / Dcg(d, ideal)
            && 0.0 <= m.ndcg <= 1.0
            && (m.ndcg == 1.0 <==> SameGrades(GradesOf(rel, page), ideal))
            && IsRecall(rel, page, m.recall) && IsReciprocalRank(rel, page, m.mrr)
  {
    hide Discount, IsMapping, Dcg, IdealGrades, GradesOf, SameGrades, IsJudged, GoodGrades, Matched, ReciprocalRank, RankingMetrics,
      IsIdeal, IsRecall, IsReciprocalRank, Graded, Distinct;
    MetricsAre(d, validId, ranked, rel, k);
    var page := if k <= |ranked| then ranked[..k] else ranked;
    NdcgMeans(d, rel, page, k);
    RecallMeans(rel, page);
    RankIsFirstJudged(rel, page);
  }

  lemma MetricsAre<Id(!new)>(d: nat -> real, validId: Id -> bool, ranked: seq<Id>, rel: seq<Judged<Id>>, k: int)
    requires Discount(d)
    requires RankingMetrics(d, validId, ranked, rel, k).Ok? && RankingMetrics(d, validId, ranked, rel, k).metrics.Metrics?
    ensures var m := RankingMetrics(d, validId, ranked, rel, k).metrics;
            var page := if k <= |ranked| then ranked[..k] else ranked;
            && k >= 1 && rel != [] && GoodGrades(rel) && Distinct(page) && |page| <= k
            && Graded(GradesOf(rel, page)) && Graded(IdealGrades(rel, k)) && Dcg(d, IdealGrades(rel, k)) > 0.0
            && m == Metrics(Matched(rel, page) as real / |rel| as real, ReciprocalRank(rel, page, 0),
                            Clamp(Dcg(d, GradesOf(rel, page)) / Dcg(d, IdealGrades(rel, k))))
  {
    hide HasDuplicate, Dcg, IdealGrades, GradesOf, Discount, ReciprocalRank, Matched, Clamp, Distinct;
    PageIsDistinct(ranked, k);
    GradesAreGraded(rel, Take(ranked, k));
    IdealIsGraded(rel, k);
    IdealNotEmpty(rel, k);
    DcgNonneg(d, IdealGrades(rel, k));
  }

  lemma NdcgMeans<Id(!new)>(d: nat -> real, rel: seq<Judged<Id>>, page: seq<Id>, k: nat)
    requires Discount(d) && IsMapping(rel) && GoodGrades(rel) && Distinct(page) && |page| <= k
    requires Graded(GradesOf(rel, page)) && Graded(IdealGrades(rel, k)) && Dcg(d, IdealGrades(rel, k)) > 0.0
    ensures var ideal := IdealGrades(rel, k); var x := Dcg(d, GradesOf(rel, page)) / Dcg(d, ideal);
            && Clamp(x) == x && 0.0 <= x <= 1.0 && (x == 1.0 <==> SameGrades(GradesOf(rel, page), ideal))
            && IsIdeal(rel, k, ideal)
  {
    var ideal := IdealGrades(rel, k);
    IdealIsIdeal(rel, k);
    hide IsIdeal, Dcg, IdealGrades, GradesOf, Discount, SameGrades, IsMapping, SortDesc, Descending;
    DcgNonneg(d, GradesOf(rel, page));
    IdealDominates(rel, page, k);
    DcgBound(d, GradesOf(rel, page), ideal);
    RatioFacts(Dcg(d, GradesOf(rel, page)), Dcg(d, ideal));
  }

  lemma IdealIsIdeal<Id(!new)>(rel: seq<Judged<Id>>, k: nat)
    ensures IsIdeal(rel, k, IdealGrades(rel, k))
  {
    SortDescFacts(Values(rel));
    IdealIsCut(rel, k);
    hide IdealGrades, SortDesc, Values, Descending;
    assert Descending(SortDesc(Values(rel)));
  }

  lemma RecallMeans<Id(!new)>(rel: seq<Judged<Id>>, page: seq<Id>)
    requires IsMapping(rel) && GoodGrades(rel) && Distinct(page) && rel != []
    ensures IsRecall(rel, page, Matched(rel, page) as real / |rel| as real)
  {
    FullRecall(rel, page);
    CountsJudged(rel, page);
    hide Matched, IsJudged, GoodGrades, IsMapping;
    RatioFacts(Matched(rel, page) as real, |rel| as real);
    TimesBack(Matched(rel, page) as real, |rel| as real);
  }

  lemma TimesBack(a: real, b: real)
    requires b > 0.0
    ensures a / b * b == a
  {
  }

  lemma IdealIsCut<Id(!new)>(rel: seq<Judged<Id>>, k: nat)
    ensures var full := SortDesc(Values(rel)); IdealGrades(rel, k) == if k <= |full| then full[..k] else full
  {
  }

  lemma CountsJudged<Id(!new)>(rel: seq<Judged<Id>>, page: seq<Id>)
    requires GoodGrades(rel) && Distinct(page)
    ensures Matched(rel, page) == |set id | id in page && IsJudged(rel, id)|
  {
    ShownCount(rel, page, 1);
    forall id ensures id in ShownAtLeast(rel, page, 1) <==> id in page && IsJudged(rel, id) { GradeIsGraded(rel, id); }
    assert ShownAtLeast(rel, page, 1) == set id | id in page && IsJudged(rel, id);
  }

  lemma RankIsFirstJudged<Id(!new)>(rel: seq<Judged<Id>>, page: seq<Id>)
    requires GoodGrades(rel)
    ensures IsReciprocalRank(rel, page, ReciprocalRank(rel, page, 0))
  {
    forall i | 0 <= i < |page| ensures GradeOf(rel, page[i]) >= 1 <==> IsJudged(rel, page[i]) { GradeIsGraded(rel, page[i]); }
    hide IsJudged, GradeOf;
    ReciprocalRankZero(rel, page, 0);
    forall i | 0 <= i < |page| && IsJudged(rel, page[i]) && (forall j :: 0 <= j < i ==> !IsJudged(rel, page[j]))
      ensures ReciprocalRank(rel, page, 0) == 1.0 / (i + 1) as real
    {
      ReciprocalRankIs(rel, page, 0, i);
    }
  }

  lemma RatioFacts(a: real, b: real)
    requires 0.0 <= a <= b && b > 0.0
    ensures 0.0 <= a / b <= 1.0 && (a / b == 1.0 <==> a == b)
  {
    assert a / b * b == a;
    assert (1.0 - a / b) * b == b - a;
  }

  lemma PageIsDistinct<Id(!new)>(ranked: seq<Id>, k: nat)
    requires !HasDuplicate(ranked)
    ensures Distinct(Take(ranked, k)) && |Take(ranked, k)| <= k
  {
    NoDuplicateIsDistinct(ranked);
  }

  lemma IdealNotEmpty<Id(!new)>(rel: seq<Judged<Id>>, k: nat)
    requires rel != [] && k >= 1
    ensures IdealGrades(rel, k) != []
  {
    SortDescFacts(Values(rel));
  }

  lemma FullRecall<Id(!new)>(rel: seq<Judged<Id>>, page: seq<Id>)
    requires IsMapping(rel) && GoodGrades(rel) && Distinct(page)
    ensures Matched(rel, page) <= |rel|
    ensures Matched(rel, page) == |rel| <==> forall i :: 0 <= i < |rel| ==> rel[i].id in page
  {
    ValuesAre(rel);
    AllCount(Values(rel), 1, |rel|);
    PageCount(rel, page, 1);
    ShownCount(rel, page, 1);
    JudgedCount(rel, 1);
    var shown, all := ShownAtLeast(rel, page, 1), JudgedAtLeast(rel, 1);
    forall id ensures id in shown ==> id in all { JudgedAre(rel, 1, id); }
    forall i | 0 <= i < |rel| ensures rel[i].id in all { GradeIsGraded(rel, rel[i].id); JudgedAre(rel, 1, rel[i].id); }
    if Matched(rel, page) == |rel| {
      SubsetSameSize(shown, all);
    }
    if forall i :: 0 <= i < |rel| ==> rel[i].id in page {
      forall id | id in all ensures id in shown { JudgedAre(rel, 1, id); }
      assert shown == all;
    }
  }

  lemma SubsetSameSize<T>(a: set<T>, b: set<T>)
    requires a <= b && |a| == |b|
    ensures a == b
  {
    if x :| x in b && x !in a { SubsetSize(a, b - {x}); }
  }

  /** The reciprocal rank finds the first judged result. */
  lemma {:induction false} ReciprocalRankIs<Id(!new)>(rel: seq<Judged<Id>>, page: seq<Id>, skipped: nat, i: nat)
    requires i < |page| && GradeOf(rel, page[i]) >= 1 && forall j :: 0 <= j < i ==> GradeOf(rel, page[j]) < 1
    ensures ReciprocalRank(rel, page, skipped) == 1.0 / (skipped + i + 1) as real
    decreases i
  {
    if i > 0 {
      assert forall j :: 0 <= j < i - 1 ==> page[1..][j] == page[j + 1];
      ReciprocalRankIs(rel, page[1..], skipped + 1, i - 1);
    }
  }

  lemma {:induction false} ReciprocalRankZero<Id(!new)>(rel: seq<Judged<Id>>, page: seq<Id>, skipped: nat)
    ensures ReciprocalRank(rel, page, skipped) == 0.0 <==> forall j :: 0 <= j < |page| ==> GradeOf(rel, page[j]) < 1
    decreases |page|
  {
    if page != [] {
      ReciprocalRankZero(rel, page[1..], skipped + 1);
      if GradeOf(rel, page[0]) < 1 && forall j :: 0 <= j < |page[1..]| ==> GradeOf(rel, page[1..][j]) < 1 {
        forall j | 0 <= j < |page| ensures GradeOf(rel, page[j]) < 1 { if j > 0 { assert page[j] == page[1..][j - 1]; } }
      }
      if forall j :: 0 <= j < |page| ==> GradeOf(rel, page[j]) < 1 {
        forall j | 0 <= j < |page[1..]| ensures GradeOf(rel, page[1..][j]) < 1 { assert page[1..][j] == page[j + 1]; }
      }
      assert 1.0 / (skipped + 1) as real != 0.0;
    }
  }
}
