/** Total orders, and Python's order on strings. */
module Ordering {
  import opened Common

  ghost predicate TotalOrder<N(!new)>(le: (N, N) -> bool) {
    && (forall a :: le(a, a))
    && (forall a, b :: le(a, b) || le(b, a))
    && (forall a, b :: le(a, b) && le(b, a) ==> a == b)
    && (forall a, b, c :: le(a, b) && le(b, c) ==> le(a, c))
  }

  /** Code-point lexicographic order, Python's `<=` on strings. */
  predicate LexLe(a: string, b: string) {
    a == [] || (b != [] && (a[0] < b[0] || (a[0] == b[0] && LexLe(a[1..], b[1..]))))
  }

  lemma {:induction false} LexRefl(a: string)
    ensures LexLe(a, a)
  {
    if a != [] { LexRefl(a[1..]); }
  }

  lemma {:induction false} LexTotal(a: string, b: string)
    ensures LexLe(a, b) || LexLe(b, a)
  {
    if a != [] && b != [] { LexTotal(a[1..], b[1..]); }
  }

  lemma {:induction false} LexAntisym(a: string, b: string)
    requires LexLe(a, b) && LexLe(b, a)
    ensures a == b
  {
    if a != [] && b != [] {
      LexAntisym(a[1..], b[1..]);
      assert a == [a[0]] + a[1..] && b == [b[0]] + b[1..];
    }
  }

  lemma {:induction false} LexTrans(a: string, b: string, c: string)
    requires LexLe(a, b) && LexLe(b, c)
    ensures LexLe(a, c)
  {
    if a != [] && b != [] && c != [] && a[0] == b[0] == c[0] { LexTrans(a[1..], b[1..], c[1..]); }
  }

  lemma LexIsTotalOrder()
    ensures TotalOrder(LexLe)
  {
    forall a ensures LexLe(a, a) { LexRefl(a); }
    forall a, b ensures LexLe(a, b) || LexLe(b, a) { LexTotal(a, b); }
    forall a, b | LexLe(a, b) && LexLe(b, a) ensures a == b { LexAntisym(a, b); }
    forall a, b, c | LexLe(a, b) && LexLe(b, c) ensures LexLe(a, c) { LexTrans(a, b, c); }
  }

  ghost predicate IsLeast<N(!new)>(le: (N, N) -> bool, s: set<N>, x: N) { x in s && forall y :: y in s ==> le(x, y) }

  lemma Compare<N(!new)>(le: (N, N) -> bool, a: N, b: N, c: N)
    requires TotalOrder(le)
    ensures le(a, a) && (le(a, b) || le(b, a)) && (le(a, b) && le(b, c) ==> le(a, c))
  {
  }

  /** A non-empty finite set has a least element. */
  lemma {:induction false} LeastExists<N(!new)>(le: (N, N) -> bool, s: set<N>)
    requires TotalOrder(le) && s != {}
    ensures exists x :: IsLeast(le, s, x)
  {
    hide TotalOrder;
    var x :| x in s;
    Compare(le, x, x, x);
    var rest := s - {x};
    if rest == {} {
      assert s == {x};
      assert IsLeast(le, s, x);
    } else {
      LeastExists(le, rest);
      var m :| IsLeast(le, rest, m);
      Compare(le, x, m, m);
      var least := if le(x, m) then x else m;
      forall y | y in s ensures le(least, y) { Compare(le, x, m, y); }
      assert IsLeast(le, s, least);
    }
  }

  /** `sorted` on a set. */
  method Sorted<N(==, !new)>(le: (N, N) -> bool, s: set<N>) returns (r: seq<N>)
    requires TotalOrder(le)
    ensures Distinct(r) && (forall x :: x in r <==> x in s)
    ensures forall i, j :: 0 <= i < j < |r| ==> le(r[i], r[j])
  {
    hide TotalOrder;
    r := [];
    var todo := s;
    while todo != {}
      invariant todo <= s && Distinct(r)
      invariant forall x :: x in r <==> x in s && x !in todo
      invariant forall i, j :: 0 <= i < j < |r| ==> le(r[i], r[j])
      invariant forall i, y :: 0 <= i < |r| && y in todo ==> le(r[i], y)
      decreases |todo|
    {
      LeastExists(le, todo);
      ghost var least :| IsLeast(le, todo, least);
      assert least in todo && forall y :: y in todo ==> le(least, y);
      var x :| x in todo && forall y :: y in todo ==> le(x, y);
      r := r + [x];
      todo := todo - {x};
    }
  }
}
