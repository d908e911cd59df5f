/** Definitions the other modules share. */
module Common {

  datatype Option<+T> = None | Some(value: T)

  /** Reading a `defaultdict(list)`. */
  function Get<A(==), B>(m: map<A, seq<B>>, k: A): seq<B> { if k in m then m[k] else [] }

  ghost predicate Distinct<T>(s: seq<T>) { forall i, j :: 0 <= i < j < |s| ==> s[i] != s[j] }

  function Sum(s: seq<real>): real { if s == [] then 0.0 else Sum(s[..|s| - 1]) + s[|s| - 1] }

  ghost predicate Nonneg(s: seq<real>) { forall i :: 0 <= i < |s| ==> s[i] >= 0.0 }

  lemma {:induction false} SumNonneg(s: seq<real>)
    requires Nonneg(s)
    ensures Sum(s) >= 0.0
  {
    if s != [] { SumNonneg(s[..|s| - 1]); }
  }

  lemma SumAppend(s: seq<real>, x: real)
    ensures Sum(s + [x]) == Sum(s) + x
  {
    assert (s + [x])[..|s|] == s;
  }

  lemma {:induction false} SumUpdate(s: seq<real>, i: nat, x: real)
    requires i < |s|
    ensures Sum(s[i := x]) == Sum(s) - s[i] + x
  {
    var n := |s| - 1;
    if i < n {
      SumUpdate(s[..n], i, x);
      assert s[i := x][..n] == s[..n][i := x];
    } else {
      assert s[i := x][..n] == s[..n];
    }
  }

  lemma {:induction false} SumSuffix(s: seq<real>, k: nat)
    requires k <= |s| && Nonneg(s)
    ensures Sum(s[k..]) <= Sum(s)
  {
    if k == |s| {
      SumNonneg(s);
    } else {
      var n := |s| - 1;
      SumSuffix(s[..n], k);
      assert s[k..][..n - k] == s[..n][k..];
    }
  }

  lemma {:induction false} SubsetSize<T>(a: set<T>, b: set<T>)
    requires a <= b
    ensures |a| <= |b|
  {
    if a != {} { var x :| x in a; SubsetSize(a - {x}, b - {x}); }
  }

  lemma {:induction false} MulStep(m: nat, a: int, b: int)
    requires a < b
    ensures m * a + m <= m * b
    decreases b - a
  {
    assert m * b == m * (b - 1) + m;
    if a + 1 < b { MulStep(m, a, b - 1); }
  }

  /** Quotient and remainder are unique. */
  lemma DivisionIs(x: nat, m: nat, q: nat, r: nat)
    requires m > 0 && x == m * q + r && r < m
    ensures x / m == q && x % m == r
  {
    var q', r' := x / m, x % m;
    assert x == m * q' + r';
    if q < q' { MulStep(m, q, q'); } else if q' < q { MulStep(m, q', q); }
  }
}
