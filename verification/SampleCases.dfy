/** `sample_cases` of benchmarks/conversation_bench.py: exactly `limit` questions, dealt round-robin over the
    (type, conversation) strata along a rotated schedule. The shuffle is an arbitrary permutation of each stratum. */
module SampleCases {
  import opened Common
  import opened Ordering

  /** A stratum: one question type within one conversation. */
  datatype Key<K> = Key(kind: K, index: nat)

  /** One input question, by conversation and position. */
  datatype Question = Question(index: nat, pos: nat)

  /** The input, reduced to what the sampler reads: the type of every question of every conversation. */
  type Cases<K> = seq<seq<K>>

  predicate InInput<K(==)>(cases: Cases<K>, q: Question) { q.index < |cases| && q.pos < |cases[q.index]| }

  function KeyOf<K(==)>(cases: Cases<K>, q: Question): Key<K>
    requires InInput(cases, q)
  {
    Key(cases[q.index][q.pos], q.index)
  }

  // ---------------------------------------------------------------- the schedule

  /** One phase: every conversation once, each with the type `phase` places further on. */
  function PhaseRow<K>(categories: seq<K>, indices: seq<nat>, phase: nat): (r: seq<Key<K>>)
    requires categories != []
    ensures |r| == |indices|
    ensures forall i :: 0 <= i < |indices| ==> r[i] == Key(categories[(i + phase) % |categories|], indices[i])
  {
    seq(|indices|, i requires 0 <= i < |indices| => Key(categories[(i + phase) % |categories|], indices[i]))
  }

  function Phases<K>(categories: seq<K>, indices: seq<nat>, n: nat): seq<Key<K>>
    requires categories != []
  {
    if n == 0 then [] else Phases(categories, indices, n - 1) + PhaseRow(categories, indices, n - 1)
  }

  function Schedule<K>(categories: seq<K>, indices: seq<nat>): seq<Key<K>> {
    if categories == [] then [] else Phases(categories, indices, |categories|)
  }

  lemma {:induction false} PhasesContain<K(!new)>(categories: seq<K>, indices: seq<nat>, n: nat, key: Key<K>)
    requires categories != []
    ensures key in Phases(categories, indices, n) <==>
            exists phase, i :: 0 <= phase < n && 0 <= i < |indices| && key == PhaseRow(categories, indices, phase)[i]
  {
    if n > 0 { PhasesContain(categories, indices, n - 1, key); }
  }

  lemma SameResidue(i: nat, p: nat, q: nat, m: nat)
    requires 0 < m && p < m && q < m && (i + p) % m == (i + q) % m
    ensures p == q
  {
    var a, b := (i + p) / m, (i + q) / m;
    assert i + p == m * a + (i + p) % m && i + q == m * b + (i + q) % m;
    if a < b { MulStep(m, a, b); } else if b < a { MulStep(m, b, a); }
  }

  lemma ResidueReached(i: nat, c: nat, m: nat) returns (phase: nat)
    requires c < m
    ensures phase < m && (i + phase) % m == c
  {
    phase := (c + m - i % m) % m;
    var k := i / m;
    assert i == m * k + i % m;
    if c >= i % m {
      assert c + m - i % m == m + (c - i % m);
      assert phase == c - i % m by { DivisionIs(m + (c - i % m), m, 1, c - i % m); }
      assert i + phase == m * k + c;
      DivisionIs(i + phase, m, k, c);
    } else {
      assert phase == c + m - i % m by { DivisionIs(c + m - i % m, m, 0, c + m - i % m); }
      assert i + phase == m * (k + 1) + c;
      DivisionIs(i + phase, m, k + 1, c);
    }
  }

  lemma RowDistinct<K(!new)>(categories: seq<K>, indices: seq<nat>, phase: nat)
    requires categories != [] && Distinct(indices)
    ensures Distinct(PhaseRow(categories, indices, phase))
  {
  }

  lemma RowsDisjoint<K(!new)>(categories: seq<K>, indices: seq<nat>, p: nat, q: nat, i: nat, j: nat)
    requires categories != [] && Distinct(categories) && Distinct(indices)
    requires p < |categories| && q < |categories| && i < |indices| && j < |indices|
    requires PhaseRow(categories, indices, p)[i] == PhaseRow(categories, indices, q)[j]
    ensures p == q && i == j
  {
    assert indices[i] == indices[j];
    assert i == j;
    var m := |categories|;
    assert categories[(i + p) % m] == categories[(i + q) % m];
    assert (i + p) % m == (i + q) % m;
    SameResidue(i, p, q, m);
  }

  lemma {:induction false} PhasesDistinct<K(!new)>(categories: seq<K>, indices: seq<nat>, n: nat)
    requires categories != [] && Distinct(categories) && Distinct(indices) && n <= |categories|
    ensures Distinct(Phases(categories, indices, n))
  {
    if n > 0 {
      PhasesDistinct(categories, indices, n - 1);
      RowDistinct(categories, indices, n - 1);
      var before, row := Phases(categories, indices, n - 1), PhaseRow(categories, indices, n - 1);
      forall a, b | 0 <= a < |before| && 0 <= b < |row| ensures before[a] != row[b] {
        PhasesContain(categories, indices, n - 1, before[a]);
        var phase, i :| 0 <= phase < n - 1 && 0 <= i < |indices| && before[a] == PhaseRow(categories, indices, phase)[i];
        if before[a] == row[b] { RowsDisjoint(categories, indices, phase, n - 1, i, b); }
      }
      DistinctConcat(before, row);
    }
  }

  lemma DistinctConcat<T>(a: seq<T>, b: seq<T>)
    requires Distinct(a) && Distinct(b) && forall i, j :: 0 <= i < |a| && 0 <= j < |b| ==> a[i] != b[j]
    ensures Distinct(a + b)
  {
  }

  /** One pass visits every (type, conversation) pair exactly once. */
  lemma ScheduleVisitsEachPairOnce<K(!new)>(categories: seq<K>, indices: seq<nat>, key: Key<K>)
    requires Distinct(categories) && Distinct(indices)
    ensures Distinct(Schedule(categories, indices))
    ensures key in Schedule(categories, indices) <==> key.kind in categories && key.index in indices
  {
    hide Phases, PhaseRow;
    if categories != [] {
      var m := |categories|;
      PhasesDistinct(categories, indices, m);
      PhasesContain(categories, indices, m, key);
      if key.kind in categories && key.index in indices {
        var c :| 0 <= c < m && categories[c] == key.kind;
        var i :| 0 <= i < |indices| && indices[i] == key.index;
        var phase := ResidueReached(i, c, m);
        assert PhaseRow(categories, indices, phase)[i] == key;
      }
    }
  }

  /** Within a phase conversations next to each other get different types, until all types have had their turn; and from
      phase to phase a conversation's type changes. */
  lemma RotationSpreads<K(!new)>(categories: seq<K>, indices: seq<nat>, phase: nat, i: nat, j: nat)
    requires Distinct(categories) && categories != []
    requires i < j < |indices| && j - i < |categories|
    ensures PhaseRow(categories, indices, phase)[i].kind != PhaseRow(categories, indices, phase)[j].kind
    ensures |categories| > 1 ==> PhaseRow(categories, indices, phase)[i].kind != PhaseRow(categories, indices, phase + 1)[i].kind
  {
    var m := |categories|;
    if (i + phase) % m == (j + phase) % m { SameResidue(i + phase, 0, j - i, m); }
    if m > 1 && (i + phase) % m == (i + phase + 1) % m { SameResidue(i + phase, 0, 1, m); }
  }

  // ---------------------------------------------------------------- strata

  type Strata<K(==)> = map<Key<K>, seq<Question>>

  /** The questions of one type in one conversation, in order. */
  function StratumOf<K(==)>(row: seq<K>, kind: K, index: nat): seq<Question> {
    if row == [] then []
    else
      var n := |row| - 1;
      StratumOf(row[..n], kind, index) + (if row[n] == kind then [Question(index, n)] else [])
  }

  function Stratum<K(==)>(cases: Cases<K>, key: Key<K>): seq<Question> {
    if key.index < |cases| then StratumOf(cases[key.index], key.kind, key.index) else []
  }

  lemma {:induction false} StratumOfFacts<K(!new)>(row: seq<K>, kind: K, index: nat)
    ensures var s := StratumOf(row, kind, index);
            && Distinct(s)
            && (forall q :: q in s <==> q.index == index && q.pos < |row| && row[q.pos] == kind)
  {
    if row != [] { StratumOfFacts(row[..|row| - 1], kind, index); }
  }

  /** The two nested loops that fill the strata. */
  method BuildStrata<K(==, !new)>(cases: Cases<K>) returns (strata: Strata<K>)
    ensures forall key :: Get(strata, key) == Stratum(cases, key)
  {
    strata := map[];
    for i := 0 to |cases|
      invariant forall key :: Get(strata, key) == if key.index < i then Stratum(cases, key) else []
    {
      var row := cases[i];
      for j := 0 to |row|
        invariant forall key :: Get(strata, key) ==
                    if key.index < i then Stratum(cases, key)
                    else if key.index == i then StratumOf(row[..j], key.kind, i) else []
      {
        var key := Key(row[j], i);
        assert row[..j + 1][..j] == row[..j];
        strata := strata[key := Get(strata, key) + [Question(i, j)]];
        forall k ensures Get(strata, k) ==
                    if k.index < i then Stratum(cases, k)
                    else if k.index == i then StratumOf(row[..j + 1], k.kind, i) else [] {
          if k.index == i && k != key { assert row[j] != k.kind; }
        }
      }
      assert row[..|row|] == row;
    }
  }

  // ---------------------------------------------------------------- what has been dealt

  /** The undealt strata and the dealt questions split the input, with nothing dealt twice. */
  ghost predicate Splits<K(!new)>(cases: Cases<K>, rem: Strata<K>, sel: map<nat, seq<Question>>, chosen: set<Question>) {
    && (forall key :: Distinct(Get(rem, key)))
    && (forall key, q :: q in Get(rem, key) ==> InInput(cases, q) && KeyOf(cases, q) == key && q !in chosen)
    && (forall q :: q in chosen ==> InInput(cases, q))
    && (forall q :: InInput(cases, q) ==> q in chosen || q in Get(rem, KeyOf(cases, q)))
    && (forall i :: Distinct(Get(sel, i)))
    && (forall i, q :: q in Get(sel, i) <==> q in chosen && q.index == i)
  }

  /** `selected[key[1]].append(strata[key].pop())`. */
  method PopOne<K(==, !new)>(cases: Cases<K>, rem: Strata<K>, sel: map<nat, seq<Question>>, key: Key<K>, ghost chosen: set<Question>)
      returns (rem': Strata<K>, sel': map<nat, seq<Question>>, q: Question)
    requires Splits(cases, rem, sel, chosen) && Get(rem, key) != []
    ensures var s := Get(rem, key); q == s[|s| - 1] && rem' == rem[key := s[..|s| - 1]]
    ensures sel' == sel[key.index := Get(sel, key.index) + [q]]
    ensures q !in chosen && InInput(cases, q) && KeyOf(cases, q) == key
    ensures Splits(cases, rem', sel', chosen + {q})
  {
    var s := Get(rem, key);
    q := s[|s| - 1];
    rem' := rem[key := s[..|s| - 1]];
    sel' := sel[key.index := Get(sel, key.index) + [q]];
    PopKeepsSplit(cases, rem, sel, key, chosen);
  }

  lemma PopKeepsSplit<K(!new)>(cases: Cases<K>, rem: Strata<K>, sel: map<nat, seq<Question>>, key: Key<K>, chosen: set<Question>)
    requires Splits(cases, rem, sel, chosen) && Get(rem, key) != []
    ensures var s := Get(rem, key); var q := s[|s| - 1];
            && q !in chosen && InInput(cases, q) && KeyOf(cases, q) == key
            && Splits(cases, rem[key := s[..|s| - 1]], sel[key.index := Get(sel, key.index) + [q]], chosen + {q})
  {
    var s := Get(rem, key);
    var q := s[|s| - 1];
    assert q in s;
    var r, t := rem[key := s[..|s| - 1]], sel[key.index := Get(sel, key.index) + [q]];
    assert s == s[..|s| - 1] + [q];
    forall k ensures Distinct(Get(r, k)) { assert k != key ==> Get(r, k) == Get(rem, k); assert Distinct(Get(rem, k)); }
    forall k, x | x in Get(r, k) ensures InInput(cases, x) && KeyOf(cases, x) == k && x !in chosen + {q} {
      assert x in Get(rem, k);
    }
    forall x | InInput(cases, x) ensures x in chosen + {q} || x in Get(r, KeyOf(cases, x)) {
      assert x in chosen || x in Get(rem, KeyOf(cases, x));
    }
    forall i ensures Distinct(Get(t, i)) { assert i != key.index ==> Get(t, i) == Get(sel, i); }
    forall i, x ensures x in Get(t, i) <==> x in chosen + {q} && x.index == i {
      assert i != key.index ==> Get(t, i) == Get(sel, i);
    }
  }

  // ---------------------------------------------------------------- dealing

  /** What round-robin gives a stratum after `passes` full passes, plus one more if this pass has reached it. */
  function Quota(size: nat, passes: nat, reached: bool): nat {
    var want := passes + (if reached then 1 else 0);
    if want <= size then want else size
  }

  /** Every scheduled stratum has been dealt exactly its round-robin quota. */
  ghost predicate RoundRobin<K(!new)>(sched: seq<Key<K>>, full: Strata<K>, rem: Strata<K>, passes: nat, reached: nat) {
    forall i :: 0 <= i < |sched| ==>
      |Get(rem, sched[i])| == |Get(full, sched[i])| - Quota(|Get(full, sched[i])|, passes, i < reached)
  }

  ghost function AllQuestions<K(!new)>(cases: Cases<K>): set<Question> {
    set i, j | 0 <= i < |cases| && 0 <= j < |cases[i]| :: Question(i, j)
  }

  lemma AllQuestionsAre<K(!new)>(cases: Cases<K>, q: Question)
    ensures q in AllQuestions(cases) <==> InInput(cases, q)
  {
    if InInput(cases, q) { assert q == Question(q.index, q.pos); }
  }

  ghost predicate Covers<K(!new)>(cases: Cases<K>, sched: seq<Key<K>>) {
    forall q :: InInput(cases, q) ==> KeyOf(cases, q) in sched
  }

  /** While fewer questions are dealt than there are, some scheduled stratum still has one. */
  lemma SomethingLeft<K(!new)>(cases: Cases<K>, sched: seq<Key<K>>, rem: Strata<K>, sel: map<nat, seq<Question>>, chosen: set<Question>)
      returns (t: nat)
    requires Splits(cases, rem, sel, chosen) && Covers(cases, sched) && |chosen| < |AllQuestions(cases)|
    ensures t < |sched| && Get(rem, sched[t]) != []
  {
    if AllQuestions(cases) <= chosen { SubsetSize(AllQuestions(cases), chosen); }
    var q :| q in AllQuestions(cases) && q !in chosen;
    AllQuestionsAre(cases, q);
    assert q in Get(rem, KeyOf(cases, q));
    t :| 0 <= t < |sched| && sched[t] == KeyOf(cases, q);
  }

  lemma PassComplete<K(!new)>(sched: seq<Key<K>>, full: Strata<K>, rem: Strata<K>, passes: nat)
    requires RoundRobin(sched, full, rem, passes, |sched|)
    ensures RoundRobin(sched, full, rem, passes + 1, 0)
  {
  }

  lemma VisitPopped<K(!new)>(sched: seq<Key<K>>, full: Strata<K>, rem: Strata<K>, rem': Strata<K>, passes: nat, j: nat)
    requires RoundRobin(sched, full, rem, passes, j) && j < |sched| && Distinct(sched) && Get(rem, sched[j]) != []
    requires var s := Get(rem, sched[j]); rem' == rem[sched[j] := s[..|s| - 1]]
    ensures RoundRobin(sched, full, rem', passes, j + 1)
  {
    forall i | 0 <= i < |sched|
      ensures |Get(rem', sched[i])| == |Get(full, sched[i])| - Quota(|Get(full, sched[i])|, passes, i < j + 1)
    {
      assert i != j ==> sched[i] != sched[j] && Get(rem', sched[i]) == Get(rem, sched[i]);
    }
  }

  lemma VisitEmpty<K(!new)>(sched: seq<Key<K>>, full: Strata<K>, rem: Strata<K>, passes: nat, j: nat)
    requires RoundRobin(sched, full, rem, passes, j) && j < |sched| && Get(rem, sched[j]) == []
    ensures RoundRobin(sched, full, rem, passes, j + 1)
  {
  }

  /** One pass over the schedule. */
  method OnePass<K(==, !new)>(cases: Cases<K>, sched: seq<Key<K>>, ghost full: Strata<K>, rem0: Strata<K>,
                              sel0: map<nat, seq<Question>>, count0: nat, limit: nat, ghost chosen0: set<Question>, ghost passes: nat)
      returns (rem: Strata<K>, sel: map<nat, seq<Question>>, count: nat, ghost chosen: set<Question>, ghost reached: nat)
    requires Distinct(sched) && Covers(cases, sched)
    requires Splits(cases, rem0, sel0, chosen0) && RoundRobin(sched, full, rem0, passes, 0)
    requires |chosen0| == count0 < limit < |AllQuestions(cases)|
    ensures Splits(cases, rem, sel, chosen) && RoundRobin(sched, full, rem, passes, reached) && reached <= |sched|
    ensures |chosen| == count && count0 < count <= limit
    ensures reached == |sched| || count == limit
  {
    hide Splits, RoundRobin, Distinct, Covers;
    rem, sel, count := rem0, sel0, count0;
    chosen, reached := chosen0, 0;
    ghost var t := SomethingLeft(cases, sched, rem0, sel0, chosen0);
    for j := 0 to |sched|
      invariant Splits(cases, rem, sel, chosen) && RoundRobin(sched, full, rem, passes, reached)
      invariant |chosen| == count && count0 <= count <= limit && reached <= j
      invariant reached == j || count == limit
      invariant j <= t && reached == j ==> Get(rem, sched[t]) == Get(rem0, sched[t])
      invariant j > t ==> count > count0
    {
      var key := sched[j];
      if Get(rem, key) != [] && count < limit {
        ghost var before := rem;
        var q;
        rem, sel, q := PopOne(cases, rem, sel, key, chosen);
        VisitPopped(sched, full, before, rem, passes, j);
        chosen := chosen + {q};
        count := count + 1;
        reached := j + 1;
        DistinctAt(sched, j, t);
      } else if count < limit {
        VisitEmpty(sched, full, rem, passes, j);
        reached := j + 1;
      }
    }
  }

  lemma DistinctAt<T>(s: seq<T>, j: nat, t: nat)
    requires Distinct(s) && j < |s| && t < |s|
    ensures s[j] == s[t] <==> j == t
  {
  }

  /** The dealing loop. The ghost results say how far the round-robin got. */
  method Deal<K(==, !new)>(cases: Cases<K>, sched: seq<Key<K>>, full: Strata<K>, limit: nat)
      returns (sel: map<nat, seq<Question>>, ghost rem: Strata<K>, ghost chosen: set<Question>, ghost passes: nat, ghost reached: nat)
    requires Distinct(sched) && Covers(cases, sched) && Splits(cases, full, map[], {})
    requires limit < |AllQuestions(cases)|
    ensures Splits(cases, rem, sel, chosen) && |chosen| == limit
    ensures RoundRobin(sched, full, rem, passes, reached)
  {
    hide Splits, Distinct, Covers;
    var left, count := full, 0;
    sel, chosen, passes, reached := map[], {}, 0, 0;
    while count < limit
      invariant Splits(cases, left, sel, chosen) && RoundRobin(sched, full, left, passes, reached)
      invariant |chosen| == count <= limit && (reached == 0 || count == limit)
      decreases limit - count
    {
      left, sel, count, chosen, reached := OnePass(cases, sched, full, left, sel, count, limit, chosen, passes);
      if count < limit {
        PassComplete(sched, full, left, passes);
        passes, reached := passes + 1, 0;
      }
    }
    rem := left;
  }

  // ---------------------------------------------------------------- what the sample promises

  datatype Part = Part(index: nat, questions: seq<Question>)

  /** `Unchanged` is the early return of the input itself. */
  datatype Sample = Unchanged | Picked(parts: seq<Part>)

  ghost function ChosenOf(parts: seq<Part>): set<Question> {
    set p, q | p in parts && q in p.questions :: q
  }

  /** How many questions of a stratum were chosen. */
  ghost function Dealt<K(!new)>(cases: Cases<K>, chosen: set<Question>, key: Key<K>): nat {
    |set q | q in chosen && InInput(cases, q) && KeyOf(cases, q) == key|
  }

  /** Conversations in input order, each with its own distinct input questions. */
  ghost predicate WellFormed<K(!new)>(cases: Cases<K>, parts: seq<Part>) {
    && (forall a, b :: 0 <= a < b < |parts| ==> parts[a].index < parts[b].index)
    && (forall p :: p in parts ==> p.questions != [] && Distinct(p.questions))
    && (forall p, q :: p in parts && q in p.questions ==> InInput(cases, q) && q.index == p.index)
  }

  /** Any two strata differ by at most one, unless the smaller is exhausted. */
  ghost predicate Fair<K(!new)>(cases: Cases<K>, chosen: set<Question>) {
    forall a, b :: Dealt(cases, chosen, a) > Dealt(cases, chosen, b) + 1 ==>
                     Dealt(cases, chosen, b) == |Stratum(cases, b)|
  }

  lemma {:induction false} SeqSetSize<T(!new)>(s: seq<T>)
    requires Distinct(s)
    ensures |set x | x in s| == |s|
  {
    if s == [] {
      assert (set x | x in s) == {};
    } else {
      var n := |s| - 1;
      SeqSetSize(s[..n]);
      assert s == s[..n] + [s[n]];
      assert (set x | x in s) == (set x | x in s[..n]) + {s[n]};
    }
  }

  lemma DealtCount<K(!new)>(cases: Cases<K>, rem: Strata<K>, sel: map<nat, seq<Question>>, chosen: set<Question>, key: Key<K>)
    requires Splits(cases, rem, sel, chosen)
    ensures Dealt(cases, chosen, key) + |Get(rem, key)| == |Stratum(cases, key)|
  {
    var all, left := set q | q in Stratum(cases, key), set q | q in Get(rem, key);
    var dealt := set q | q in chosen && InInput(cases, q) && KeyOf(cases, q) == key;
    StratumFacts(cases, key);
    SeqSetSize(Stratum(cases, key));
    SeqSetSize(Get(rem, key));
    forall q ensures q in all <==> q in dealt + left {
      if q in left { assert q in Get(rem, key); }
    }
    assert all == dealt + left;
    assert dealt !! left by { assert forall q :: q in left ==> q in Get(rem, key) && q !in chosen; }
  }

  lemma StratumFacts<K(!new)>(cases: Cases<K>, key: Key<K>)
    ensures Distinct(Stratum(cases, key))
    ensures forall q :: q in Stratum(cases, key) <==> InInput(cases, q) && KeyOf(cases, q) == key
  {
    if key.index < |cases| { StratumOfFacts(cases[key.index], key.kind, key.index); }
  }

  lemma RoundRobinIsFair<K(!new)>(cases: Cases<K>, sched: seq<Key<K>>, full: Strata<K>, rem: Strata<K>,
                                  sel: map<nat, seq<Question>>, chosen: set<Question>, passes: nat, reached: nat)
    requires Splits(cases, rem, sel, chosen) && RoundRobin(sched, full, rem, passes, reached) && Covers(cases, sched)
    requires forall key :: |Get(full, key)| == |Stratum(cases, key)|
    ensures Fair(cases, chosen)
  {
    hide Splits, Stratum, Dealt;
    forall a, b | Dealt(cases, chosen, a) > Dealt(cases, chosen, b) + 1
      ensures Dealt(cases, chosen, b) == |Stratum(cases, b)|
    {
      DealtIsQuota(cases, sched, full, rem, sel, chosen, passes, reached, a);
      DealtIsQuota(cases, sched, full, rem, sel, chosen, passes, reached, b);
    }
  }

  lemma DealtIsQuota<K(!new)>(cases: Cases<K>, sched: seq<Key<K>>, full: Strata<K>, rem: Strata<K>,
                              sel: map<nat, seq<Question>>, chosen: set<Question>, passes: nat, reached: nat, key: Key<K>)
    requires Splits(cases, rem, sel, chosen) && RoundRobin(sched, full, rem, passes, reached) && Covers(cases, sched)
    requires forall key :: |Get(full, key)| == |Stratum(cases, key)|
    ensures var size := |Stratum(cases, key)|;
            || Dealt(cases, chosen, key) == Quota(size, passes, true)
            || Dealt(cases, chosen, key) == Quota(size, passes, false)
  {
    hide Splits, Dealt;
    DealtCount(cases, rem, sel, chosen, key);
    StratumFacts(cases, key);
    if Stratum(cases, key) != [] {
      var q := Stratum(cases, key)[0];
      assert q in Stratum(cases, key);
      assert key in sched;
      var i :| 0 <= i < |sched| && sched[i] == key;
    }
  }

  // ---------------------------------------------------------------- the whole function

  lemma RowSize(index: nat, n: nat)
    ensures |set j | 0 <= j < n :: Question(index, j)| == n
  {
    if n > 0 {
      RowSize(index, n - 1);
      var less := set j | 0 <= j < n - 1 :: Question(index, j);
      assert (set j | 0 <= j < n :: Question(index, j)) == less + {Question(index, n - 1)};
    }
  }

  method CountQuestions<K(==, !new)>(cases: Cases<K>) returns (total: nat)
    ensures total == |AllQuestions(cases)|
  {
    total := 0;
    assert AllQuestions(cases[..0]) == {};
    for i := 0 to |cases|
      invariant total == |AllQuestions(cases[..i])|
    {
      ghost var row := set j | 0 <= j < |cases[i]| :: Question(i, j);
      RowSize(i, |cases[i]|);
      ghost var before := AllQuestions(cases[..i]);
      forall q ensures q in AllQuestions(cases[..i + 1]) <==> q in before + row {
        AllQuestionsAre(cases[..i + 1], q);
        AllQuestionsAre(cases[..i], q);
        if q in row { assert q.index == i; }
        if q.index == i && q.pos < |cases[i]| { assert q == Question(i, q.pos); }
      }
      assert AllQuestions(cases[..i + 1]) == before + row;
      forall q | q in before ensures q !in row { AllQuestionsAre(cases[..i], q); }
      assert before !! row;
      total := total + |cases[i]|;
    }
    assert cases[..|cases|] == cases;
  }

  ghost predicate Permutes<K(!new)>(shuffle: (Key<K>, seq<Question>) -> seq<Question>) {
    forall key, s :: multiset(shuffle(key, s)) == multiset(s)
  }

  lemma {:induction false} DistinctByCount<T(!new)>(s: seq<T>)
    ensures Distinct(s) <==> forall x :: multiset(s)[x] <= 1
  {
    if s != [] {
      var n := |s| - 1;
      DistinctByCount(s[..n]);
      assert s == s[..n] + [s[n]];
      if forall x :: multiset(s)[x] <= 1 {
        forall x ensures multiset(s[..n])[x] <= 1 { assert multiset(s)[x] <= 1; }
        assert multiset(s)[s[n]] <= 1;
        assert s[n] !in s[..n];
      }
      if Distinct(s) {
        assert s[n] !in s[..n];
        forall x ensures multiset(s)[x] <= 1 { assert multiset(s[..n])[x] <= 1; }
      }
    }
  }

  lemma ShuffleKeeps<K(!new)>(shuffle: (Key<K>, seq<Question>) -> seq<Question>, key: Key<K>, s: seq<Question>)
    requires Permutes(shuffle) && Distinct(s)
    ensures var t := shuffle(key, s); Distinct(t) && |t| == |s| && forall q :: q in t <==> q in s
  {
    var t := shuffle(key, s);
    assert multiset(t) == multiset(s);
    DistinctByCount(s);
    DistinctByCount(t);
    assert |multiset(t)| == |multiset(s)|;
    forall q ensures q in t <==> q in s { assert q in multiset(t) <==> q in multiset(s); }
  }

  method ShuffleAll<K(==, !new)>(cases: Cases<K>, strata: Strata<K>, shuffle: (Key<K>, seq<Question>) -> seq<Question>)
      returns (full: Strata<K>)
    requires Permutes(shuffle) && forall key :: Get(strata, key) == Stratum(cases, key)
    ensures Splits(cases, full, map[], {}) && forall key :: |Get(full, key)| == |Stratum(cases, key)|
  {
    hide Stratum, Permutes;
    full := map key | key in strata :: shuffle(key, strata[key]);
    forall key
      ensures Distinct(Get(full, key)) && |Get(full, key)| == |Stratum(cases, key)|
      ensures forall q :: q in Get(full, key) <==> InInput(cases, q) && KeyOf(cases, q) == key
    {
      StratumFacts(cases, key);
      if key in strata { ShuffleKeeps(shuffle, key, strata[key]); }
    }
  }

  predicate NatLe(a: nat, b: nat) { a <= b }

  /** The emitted conversations: those with a selection, in input order. */
  method Emit<K(==, !new)>(cases: Cases<K>, sel: map<nat, seq<Question>>, ghost rem: Strata<K>, ghost chosen: set<Question>)
      returns (parts: seq<Part>)
    requires Splits(cases, rem, sel, chosen)
    ensures WellFormed(cases, parts) && ChosenOf(parts) == chosen
  {
    hide Splits, WellFormed, ChosenOf;
    parts := [];
    NothingEmitted(cases);
    for i := 0 to |cases|
      invariant WellFormed(cases, parts)
      invariant forall p :: p in parts ==> p.index < i && p.questions == Get(sel, p.index)
      invariant forall q :: q in chosen && q.index < i ==> Part(q.index, Get(sel, q.index)) in parts
    {
      var mine := Get(sel, i);
      EmitStep(cases, sel, rem, chosen, parts, i);
      if mine != [] { parts := parts + [Part(i, mine)]; }
    }
    EmitAll(cases, sel, rem, chosen, parts);
  }

  lemma NothingEmitted<K(!new)>(cases: Cases<K>)
    ensures WellFormed(cases, [])
  {
  }

  lemma EmitStep<K(!new)>(cases: Cases<K>, sel: map<nat, seq<Question>>, rem: Strata<K>, chosen: set<Question>, parts: seq<Part>, i: nat)
    requires Splits(cases, rem, sel, chosen) && WellFormed(cases, parts) && forall p :: p in parts ==> p.index < i
    ensures Get(sel, i) != [] ==> WellFormed(cases, parts + [Part(i, Get(sel, i))])
    ensures forall q :: q in chosen && q.index == i ==> Get(sel, i) != []
  {
    var mine := Get(sel, i);
    assert Distinct(Get(sel, i));
    forall q | q in mine ensures InInput(cases, q) && q.index == i { assert q in Get(sel, i) && q in chosen; }
    forall q | q in chosen && q.index == i ensures Get(sel, i) != [] { assert q in Get(sel, i); }
  }

  lemma EmitAll<K(!new)>(cases: Cases<K>, sel: map<nat, seq<Question>>, rem: Strata<K>, chosen: set<Question>, parts: seq<Part>)
    requires Splits(cases, rem, sel, chosen)
    requires forall p :: p in parts ==> p.questions == Get(sel, p.index)
    requires forall q :: q in chosen && q.index < |cases| ==> Part(q.index, Get(sel, q.index)) in parts
    ensures ChosenOf(parts) == chosen
  {
    forall q ensures q in ChosenOf(parts) <==> q in chosen {
      if q in chosen {
        assert InInput(cases, q);
        var p := Part(q.index, Get(sel, q.index));
        assert p in parts && q in p.questions;
      }
    }
  }

  method SampleCases<K(==, !new)>(le: (K, K) -> bool, cases: Cases<K>, limit: int,
                                  shuffle: (Key<K>, seq<Question>) -> seq<Question>)
      returns (out: Sample)
    requires TotalOrder(le) && Permutes(shuffle)
    ensures limit == 0 || limit >= |AllQuestions(cases)| ==> out == Unchanged
    ensures limit < 0 ==> out == Picked([])
    ensures 0 < limit < |AllQuestions(cases)| ==>
              && out.Picked? && WellFormed(cases, out.parts)
              && |ChosenOf(out.parts)| == limit && Fair(cases, ChosenOf(out.parts))
  {
    hide TotalOrder, Permutes, Splits, RoundRobin, Fair, WellFormed, Stratum, Covers, Distinct;
    var strata := BuildStrata(cases);
    var total := CountQuestions(cases);
    if limit == 0 || limit >= total { return Unchanged; }
    if limit < 0 { return Picked([]); }
    var full := ShuffleAll(cases, strata, shuffle);
    var categories := Sorted(le, set key | key in strata :: key.kind);
    NatOrder();
    var indices := Sorted(NatLe, set key | key in strata :: key.index);
    var sched := Schedule(categories, indices);
    ScheduleCovers(cases, strata, categories, indices);
    var sel;
    ghost var rem, chosen, passes, reached;
    sel, rem, chosen, passes, reached := Deal(cases, sched, full, limit);
    RoundRobinIsFair(cases, sched, full, rem, sel, chosen, passes, reached);
    var parts := Emit(cases, sel, rem, chosen);
    out := Picked(parts);
  }

  lemma NatOrder()
    ensures TotalOrder(NatLe)
  {
  }

  lemma ScheduleCovers<K(!new)>(cases: Cases<K>, strata: Strata<K>, categories: seq<K>, indices: seq<nat>)
    requires Distinct(categories) && Distinct(indices)
    requires forall key :: Get(strata, key) == Stratum(cases, key)
    requires forall x :: x in categories <==> x in (set key | key in strata :: key.kind)
    requires forall x :: x in indices <==> x in (set key | key in strata :: key.index)
    ensures Distinct(Schedule(categories, indices)) && Covers(cases, Schedule(categories, indices))
  {
    hide Schedule, Stratum, Distinct;
    forall q | InInput(cases, q) ensures KeyOf(cases, q) in Schedule(categories, indices) {
      var key := KeyOf(cases, q);
      StratumFacts(cases, key);
      assert q in Stratum(cases, key);
      assert key in strata;
      ScheduleVisitsEachPairOnce(categories, indices, key);
    }
    ScheduleDistinct(categories, indices);
  }

  lemma ScheduleDistinct<K(!new)>(categories: seq<K>, indices: seq<nat>)
    requires Distinct(categories) && Distinct(indices)
    ensures Distinct(Schedule(categories, indices))
  {
    if categories != [] { PhasesDistinct(categories, indices, |categories|); }
  }
}
