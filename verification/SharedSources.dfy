/** `shared_source_clusters` of benchmarks/measurement.py: cases that share a gold session, directly or through a
    chain of other cases, get one label. Union-find with path halving; the smaller name wins a link. */
module SharedSources {
  import opened Common
  import opened Ordering

  /** One benchmark case: its name and, per question, the gold sessions, in the order the loop visits them. */
  datatype Case<N, S> = Case(space: N, questions: seq<seq<S>>)

  /** "The case `space` has the gold session `session`". */
  datatype Link<N, S> = Link(space: N, session: S)

  type Parents<N(==)> = map<N, N>

  // ---------------------------------------------------------------- the forest

  /** Every parent is a node and no larger than its child. */
  ghost predicate Forest<N>(le: (N, N) -> bool, p: Parents<N>) {
    forall x :: x in p ==> p[x] in p && le(p[x], x)
  }

  /** The nodes strictly below `x`: the termination measure of the root loop. */
  ghost function Below<N>(le: (N, N) -> bool, p: Parents<N>, x: N): set<N> {
    set y | y in p && le(y, x) && y != x
  }

  lemma {:induction false} StrictSubsetSize<T>(a: set<T>, b: set<T>)
    requires a < b
    ensures |a| < |b|
  {
    var x :| x in b && x !in a;
    SubsetSize(a, b - {x});
  }

  lemma SmallerIsBelow<N(!new)>(le: (N, N) -> bool, p: Parents<N>, x: N, y: N)
    requires TotalOrder(le) && y in p && le(y, x) && y != x
    ensures |Below(le, p, y)| < |Below(le, p, x)|
  {
    assert y in Below(le, p, x) && y !in Below(le, p, y);
    StrictSubsetSize(Below(le, p, y), Below(le, p, x));
  }

  ghost function Root<N(!new)>(le: (N, N) -> bool, p: Parents<N>, x: N): (r: N)
    requires TotalOrder(le) && Forest(le, p) && x in p
    ensures r in p && p[r] == r && le(r, x)
    decreases |Below(le, p, x)|
  {
    if p[x] == x then x else SmallerIsBelow(le, p, x, p[x]); Root(le, p, p[x])
  }

  lemma ParentOf<N>(le: (N, N) -> bool, p: Parents<N>, x: N)
    requires Forest(le, p) && x in p
    ensures p[x] in p && le(p[x], x)
  {
  }

  lemma RootOfParent<N(!new)>(le: (N, N) -> bool, p: Parents<N>, x: N)
    requires TotalOrder(le) && Forest(le, p) && x in p
    ensures p[x] in p && Root(le, p, x) == Root(le, p, p[x])
  {
  }

  /** The table after one halving step at `x`. */
  function Halved<N(==)>(p: Parents<N>, x: N): Parents<N>
    requires x in p && p[x] in p
  {
    p[x := p[p[x]]]
  }

  lemma HalvedIsForest<N(!new)>(le: (N, N) -> bool, p: Parents<N>, x: N)
    requires TotalOrder(le) && Forest(le, p) && x in p
    ensures p[x] in p && p[p[x]] in p && le(p[p[x]], x)
    ensures Forest(le, Halved(p, x)) && Halved(p, x).Keys == p.Keys
  {
    hide TotalOrder;
    Grandparent(le, p, x);
    Redirected(le, p, x, p[p[x]]);
  }

  lemma Grandparent<N(!new)>(le: (N, N) -> bool, p: Parents<N>, x: N)
    requires TotalOrder(le) && Forest(le, p) && x in p
    ensures p[x] in p && p[p[x]] in p && le(p[p[x]], x)
  {
    hide Forest, TotalOrder;
    ParentOf(le, p, x);
    ParentOf(le, p, p[x]);
    Compare(le, p[p[x]], p[x], x);
  }

  lemma Redirected<N(!new)>(le: (N, N) -> bool, p: Parents<N>, x: N, to: N)
    requires Forest(le, p) && x in p && to in p && le(to, x)
    ensures Forest(le, p[x := to]) && p[x := to].Keys == p.Keys
  {
    assert p[x := to].Keys == p.Keys;
  }

  /** One halving step changes no root. */
  lemma {:induction false} HalvingKeepsRoots<N(!new)>(le: (N, N) -> bool, p: Parents<N>, x: N, y: N)
    requires TotalOrder(le) && Forest(le, p) && x in p && p[x] in p && p[x] != x && y in p
    requires Forest(le, Halved(p, x)) && Halved(p, x).Keys == p.Keys
    ensures Root(le, Halved(p, x), y) == Root(le, p, y)
    decreases |Below(le, p, y)|
  {
    hide Forest, TotalOrder, Below;
    var q := Halved(p, x);
    ParentOf(le, q, y);
    RootOfParent(le, p, y);
    RootOfParent(le, p, p[y]);
    if q[y] != y {
      SmallerIsBelow(le, p, y, q[y]);
      HalvingKeepsRoots(le, p, x, q[y]);
      RootOfParent(le, q, y);
    } else {
      HalvedStaysStrict(le, p, x);
    }
  }

  /** Halving a node that is not a root never makes it one. */
  lemma HalvedStaysStrict<N(!new)>(le: (N, N) -> bool, p: Parents<N>, x: N)
    requires TotalOrder(le) && Forest(le, p) && x in p && p[x] in p && p[x] != x
    ensures Halved(p, x)[x] != x
  {
    ParentOf(le, p, x);
    ParentOf(le, p, p[x]);
    hide Forest;
  }

  /** Linking one root under a smaller one merges exactly their two trees. */
  lemma {:induction false} LinkingMergesRoots<N(!new)>(le: (N, N) -> bool, p: Parents<N>, left: N, right: N, y: N)
    requires TotalOrder(le) && Forest(le, p) && y in p
    requires left in p && right in p && p[left] == left && p[right] == right && le(left, right)
    ensures Forest(le, p[right := left])
    ensures Root(le, p[right := left], y) == if Root(le, p, y) == right then left else Root(le, p, y)
    decreases |Below(le, p, y)|
  {
    var q := p[right := left];
    assert Forest(le, q);
    if p[y] != y {
      SmallerIsBelow(le, p, y, p[y]);
      LinkingMergesRoots(le, p, left, right, p[y]);
      assert q[y] == p[y];
    } else if y == right && left != right {
      assert Root(le, q, left) == left;
    }
  }

  /** The root of every node. */
  ghost function Roots<N(!new)>(le: (N, N) -> bool, p: Parents<N>): (m: map<N, N>)
    requires TotalOrder(le) && Forest(le, p)
    ensures m.Keys == p.Keys
  {
    map x | x in p :: Root(le, p, x)
  }

  lemma HalvingKeepsAllRoots<N(!new)>(le: (N, N) -> bool, p: Parents<N>, x: N)
    requires TotalOrder(le) && Forest(le, p) && x in p && p[x] in p && p[x] != x
    requires Forest(le, Halved(p, x)) && Halved(p, x).Keys == p.Keys
    ensures Roots(le, Halved(p, x)) == Roots(le, p)
  {
    hide Forest, TotalOrder, Root, Roots;
    forall y | y in p ensures Roots(le, Halved(p, x))[y] == Roots(le, p)[y] {
      RootsAt(le, p, y);
      RootsAt(le, Halved(p, x), y);
      HalvingKeepsRoots(le, p, x, y);
    }
  }

  lemma RootsAt<N(!new)>(le: (N, N) -> bool, p: Parents<N>, x: N)
    requires TotalOrder(le) && Forest(le, p) && x in p
    ensures Roots(le, p)[x] == Root(le, p, x)
  {
    hide Forest, TotalOrder, Root;
  }

  /** `root`: walks up with path halving. */
  method FindRoot<N(==, !new)>(le: (N, N) -> bool, parents: Parents<N>, space: N) returns (r: N, p: Parents<N>)
    requires TotalOrder(le) && Forest(le, parents) && space in parents
    ensures Forest(le, p) && p.Keys == parents.Keys && Roots(le, p) == Roots(le, parents)
    ensures r == Roots(le, parents)[space] && r in p && p[r] == r
  {
    hide Forest, TotalOrder, Below, Roots;
    p, r := parents, space;
    while p[r] != r
      invariant Forest(le, p) && p.Keys == parents.Keys && r in p
      invariant Roots(le, p) == Roots(le, parents)
      invariant Root(le, p, r) == Root(le, parents, space)
      decreases |Below(le, p, r)|
    {
      ghost var q := p;
      HalvedIsForest(le, p, r);
      HalvedStaysStrict(le, p, r);
      HalvingKeepsAllRoots(le, p, r);
      RootsAt(le, p, r);
      p := p[r := p[p[r]]];
      assert p == Halved(q, r);
      RootsAt(le, p, r);
      SameBelow(le, p, q, r);
      SmallerIsBelow(le, p, r, p[r]);
      RootOfParent(le, p, r);
      r := p[r];
    }
    RootsAt(le, parents, space);
  }

  lemma SameBelow<N>(le: (N, N) -> bool, p: Parents<N>, q: Parents<N>, x: N)
    requires p.Keys == q.Keys
    ensures Below(le, p, x) == Below(le, q, x)
  {
  }

  // ---------------------------------------------------------------- connectivity

  ghost predicate Share<N, S(!new)>(links: set<Link<N, S>>, a: N, b: N) {
    exists s :: Link(a, s) in links && Link(b, s) in links
  }

  ghost predicate Chain<N, S(!new)>(links: set<Link<N, S>>, path: seq<N>) {
    && path != []
    && forall i :: 0 <= i < |path| - 1 ==> Share(links, path[i], path[i + 1])
  }

  ghost predicate Joins<N, S(!new)>(links: set<Link<N, S>>, path: seq<N>, a: N, b: N) {
    Chain(links, path) && path[0] == a && path[|path| - 1] == b
  }

  /** A chain of cases, each sharing a gold session with the next, leads from `a` to `b`. */
  ghost predicate Connected<N(!new), S(!new)>(links: set<Link<N, S>>, a: N, b: N) {
    exists path :: Joins(links, path, a, b)
  }

  lemma ConnectedRefl<N(!new), S(!new)>(links: set<Link<N, S>>, a: N)
    ensures Connected(links, a, a)
  {
    assert Joins(links, [a], a, a);
  }

  lemma ShareConnects<N(!new), S(!new)>(links: set<Link<N, S>>, a: N, b: N)
    requires Share(links, a, b)
    ensures Connected(links, a, b)
  {
    assert Joins(links, [a, b], a, b);
  }

  lemma ConnectedTrans<N(!new), S(!new)>(links: set<Link<N, S>>, a: N, b: N, c: N)
    requires Connected(links, a, b) && Connected(links, b, c)
    ensures Connected(links, a, c)
  {
    var p :| Joins(links, p, a, b);
    var q :| Joins(links, q, b, c);
    var r := p + q[1..];
    forall i | 0 <= i < |r| - 1 ensures Share(links, r[i], r[i + 1]) {
      if i < |p| - 1 {
        assert r[i] == p[i] && r[i + 1] == p[i + 1];
      } else {
        assert r[i] == q[i - |p| + 1] && r[i + 1] == q[i - |p| + 2];
      }
    }
    assert Joins(links, r, a, c);
  }

  lemma {:induction false} ConnectedSym<N(!new), S(!new)>(links: set<Link<N, S>>, path: seq<N>, a: N, b: N)
    requires Joins(links, path, a, b)
    ensures Connected(links, b, a)
    decreases |path|
  {
    if |path| == 1 {
      ConnectedRefl(links, a);
    } else {
      assert Share(links, path[0], path[1]);
      assert Chain(links, path[1..]);
      ConnectedSym(links, path[1..], path[1], b);
      ShareConnects(links, path[1], a);
      ConnectedTrans(links, b, path[1], a);
    }
  }

  lemma ConnectedFlip<N(!new), S(!new)>(links: set<Link<N, S>>, a: N, b: N)
    requires Connected(links, a, b)
    ensures Connected(links, b, a)
  {
    var path :| Joins(links, path, a, b);
    ConnectedSym(links, path, a, b);
  }

  lemma ConnectedMono<N(!new), S(!new)>(links: set<Link<N, S>>, more: set<Link<N, S>>, a: N, b: N)
    requires links <= more && Connected(links, a, b)
    ensures Connected(more, a, b)
  {
    var path :| Joins(links, path, a, b);
    forall i | 0 <= i < |path| - 1 ensures Share(more, path[i], path[i + 1]) {
      assert Share(links, path[i], path[i + 1]);
    }
    assert Joins(more, path, a, b);
  }

  // ---------------------------------------------------------------- the invariant of the main loop

  /** Two nodes carry one tag exactly when they are connected. */
  ghost predicate Partitions<N(!new), S(!new)>(links: set<Link<N, S>>, tags: map<N, N>) {
    && (forall l :: l in links ==> l.space in tags)
    && (forall a, b :: a in tags && b in tags ==> (tags[a] == tags[b] <==> Connected(links, a, b)))
  }

  /** Every session seen so far has an owner among the cases that carry it. */
  ghost predicate Owned<N, S>(links: set<Link<N, S>>, owners: map<S, N>) {
    && (forall l :: l in links ==> l.session in owners)
    && (forall s :: s in owners ==> Link(owners[s], s) in links)
  }

  /** Every shared session joins equal tags. */
  ghost predicate Respects<N(!new), S(!new)>(links: set<Link<N, S>>, tags: map<N, N>) {
    forall u, v :: Share(links, u, v) ==> u in tags && v in tags && tags[u] == tags[v]
  }

  lemma {:induction false} ChainKeepsTag<N(!new), S(!new)>(links: set<Link<N, S>>, tags: map<N, N>, path: seq<N>, a: N, b: N)
    requires Joins(links, path, a, b) && a in tags && Respects(links, tags)
    ensures b in tags && tags[a] == tags[b]
    decreases |path|
  {
    if |path| > 1 {
      assert Share(links, path[0], path[1]);
      assert Chain(links, path[1..]);
      ChainKeepsTag(links, tags, path[1..], path[1], b);
    }
  }

  lemma ConnectedKeepsTag<N(!new), S(!new)>(links: set<Link<N, S>>, tags: map<N, N>, a: N, b: N)
    requires Connected(links, a, b) && a in tags && Respects(links, tags)
    ensures b in tags && tags[a] == tags[b]
  {
    var path :| Joins(links, path, a, b);
    ChainKeepsTag(links, tags, path, a, b);
  }

  /** A session nobody carried before joins nothing. */
  lemma FreshSession<N(!new), S(!new)>(links: set<Link<N, S>>, tags: map<N, N>, owners: map<S, N>, x: N, s: S)
    requires Partitions(links, tags) && Owned(links, owners) && x in tags && s !in owners
    ensures Partitions(links + {Link(x, s)}, tags) && Owned(links + {Link(x, s)}, owners[s := x])
  {
    hide Connected;
    var more := links + {Link(x, s)};
    forall u, v | Share(more, u, v) ensures u in tags && v in tags && tags[u] == tags[v] {
      var t :| Link(u, t) in more && Link(v, t) in more;
      if t != s { assert Share(links, u, v); ShareConnects(links, u, v); }
    }
    forall a, b | a in tags && b in tags ensures tags[a] == tags[b] <==> Connected(more, a, b) {
      if Connected(more, a, b) { ConnectedKeepsTag(more, tags, a, b); }
      if Connected(links, a, b) { ConnectedMono(links, more, a, b); }
    }
  }

  /** `merged` is `tags` with the class of `right` renamed to `left`. */
  ghost predicate Renames<N(!new)>(tags: map<N, N>, merged: map<N, N>, left: N, right: N) {
    merged.Keys == tags.Keys && forall y :: y in tags ==> merged[y] == if tags[y] == right then left else tags[y]
  }

  lemma CarrierJoinsOwner<N(!new), S(!new)>(links: set<Link<N, S>>, tags: map<N, N>, owners: map<S, N>, s: S, u: N)
    requires Partitions(links, tags) && Owned(links, owners) && s in owners
    ensures owners[s] in tags
    ensures Link(u, s) in links ==> u in tags && tags[u] == tags[owners[s]]
  {
    hide Connected;
    if Link(u, s) in links {
      assert Share(links, u, owners[s]);
      ShareConnects(links, u, owners[s]);
    }
  }

  lemma MergedAreConnected<N(!new), S(!new)>(links: set<Link<N, S>>, tags: map<N, N>, x: N, o: N, s: S, a: N, b: N)
    requires Partitions(links, tags) && x in tags && o in tags && a in tags && b in tags && Link(o, s) in links
    requires tags[a] == tags[b] || (tags[a] == tags[x] && tags[b] == tags[o]) || (tags[a] == tags[o] && tags[b] == tags[x])
    ensures Connected(links + {Link(x, s)}, a, b)
  {
    hide Connected;
    var more := links + {Link(x, s)};
    assert Share(more, x, o);
    ShareConnects(more, x, o);
    ConnectedFlip(more, x, o);
    if tags[a] == tags[b] {
      ConnectedMono(links, more, a, b);
    } else if tags[a] == tags[x] {
      ConnectedMono(links, more, a, x);
      ConnectedMono(links, more, o, b);
      ConnectedTrans(more, a, x, o);
      ConnectedTrans(more, a, o, b);
    } else {
      ConnectedMono(links, more, a, o);
      ConnectedMono(links, more, x, b);
      ConnectedTrans(more, a, o, x);
      ConnectedTrans(more, a, x, b);
    }
  }

  /** A session with an owner joins the two classes and nothing else. */
  lemma KnownSession<N(!new), S(!new)>(links: set<Link<N, S>>, tags: map<N, N>, owners: map<S, N>, x: N, s: S,
                                       merged: map<N, N>, left: N, right: N)
    requires Partitions(links, tags) && Owned(links, owners) && x in tags && s in owners && owners[s] in tags
    requires (left == tags[x] && right == tags[owners[s]]) || (right == tags[x] && left == tags[owners[s]])
    requires Renames(tags, merged, left, right)
    ensures Partitions(links + {Link(x, s)}, merged) && Owned(links + {Link(x, s)}, owners)
  {
    hide Connected;
    var more := links + {Link(x, s)};
    forall u, v | Share(more, u, v) ensures u in merged && v in merged && merged[u] == merged[v] {
      var t :| Link(u, t) in more && Link(v, t) in more;
      if t != s {
        assert Share(links, u, v);
        ShareConnects(links, u, v);
      } else {
        CarrierJoinsOwner(links, tags, owners, s, u);
        CarrierJoinsOwner(links, tags, owners, s, v);
      }
    }
    forall a, b | a in merged && b in merged ensures merged[a] == merged[b] <==> Connected(more, a, b) {
      if Connected(more, a, b) { ConnectedKeepsTag(more, merged, a, b); }
      if merged[a] == merged[b] { MergedAreConnected(links, tags, x, owners[s], s, a, b); }
    }
  }

  ghost predicate Tracks<N(!new), S(!new)>(le: (N, N) -> bool, links: set<Link<N, S>>, parents: Parents<N>,
                                           owners: map<S, N>)
    requires TotalOrder(le)
  {
    Forest(le, parents) && Partitions(links, Roots(le, parents)) && Owned(links, owners)
  }

  // ---------------------------------------------------------------- the algorithm

  lemma LinkingRenames<N(!new)>(le: (N, N) -> bool, p: Parents<N>, left: N, right: N)
    requires TotalOrder(le) && Forest(le, p)
    requires left in p && right in p && p[left] == left && p[right] == right && le(left, right)
    ensures Forest(le, p[right := left]) && p[right := left].Keys == p.Keys
    ensures Renames(Roots(le, p), Roots(le, p[right := left]), left, right)
  {
    hide Forest, TotalOrder, Root, Roots;
    LinkingMergesRoots(le, p, left, right, left);
    var q := p[right := left];
    assert q.Keys == p.Keys;
    forall y | y in p ensures Roots(le, q)[y] == if Roots(le, p)[y] == right then left else Roots(le, p)[y] {
      RootsAt(le, p, y);
      RootsAt(le, q, y);
      LinkingMergesRoots(le, p, left, right, y);
    }
  }

  lemma Comparable<N(!new)>(le: (N, N) -> bool, a: N, b: N)
    requires TotalOrder(le)
    ensures le(a, b) || le(b, a)
  {
  }

  /** `sorted((a, b))` and the assignment `parents[right] = left`. */
  method LinkRoots<N(==, !new)>(le: (N, N) -> bool, parents: Parents<N>, a: N, b: N)
      returns (p: Parents<N>, ghost left: N, ghost right: N)
    requires TotalOrder(le) && Forest(le, parents)
    requires a in parents && b in parents && parents[a] == a && parents[b] == b
    ensures Forest(le, p) && p.Keys == parents.Keys && Renames(Roots(le, parents), Roots(le, p), left, right)
    ensures (left == a && right == b) || (left == b && right == a)
  {
    hide Forest, TotalOrder, Roots;
    Comparable(le, a, b);
    var l, r := a, b;
    if !le(a, b) { l, r := b, a; }
    p := parents[r := l];
    left, right := l, r;
    LinkingRenames(le, parents, l, r);
  }

  method VisitSession<N(==, !new), S(==, !new)>(le: (N, N) -> bool, parents: Parents<N>, owners: map<S, N>,
                                                space: N, session: S, ghost links: set<Link<N, S>>)
      returns (p: Parents<N>, o: map<S, N>)
    requires TotalOrder(le) && Tracks(le, links, parents, owners) && space in parents
    ensures Tracks(le, links + {Link(space, session)}, p, o) && p.Keys == parents.Keys
  {
    hide Forest, TotalOrder, Partitions, Connected, Roots;
    p, o := parents, owners;
    if session in owners {
      CarrierJoinsOwner(links, Roots(le, parents), owners, session, space);
      var x, y;
      x, p := FindRoot(le, p, space);
      y, p := FindRoot(le, p, owners[session]);
      RootOfRoots(le, parents, p, space);
      ghost var before := Roots(le, p);
      ghost var left, right;
      p, left, right := LinkRoots(le, p, x, y);
      KnownSession(links, before, owners, space, session, Roots(le, p), left, right);
    } else {
      FreshSession(links, Roots(le, parents), owners, space, session);
      o := owners[session := space];
    }
  }

  /** A root stays a root while only paths are halved. */
  lemma RootOfRoots<N(!new)>(le: (N, N) -> bool, p: Parents<N>, q: Parents<N>, x: N)
    requires TotalOrder(le) && Forest(le, p) && Forest(le, q) && x in p && Roots(le, p) == Roots(le, q)
    ensures x in q && Roots(le, p)[x] in q && q[Roots(le, p)[x]] == Roots(le, p)[x]
  {
    hide Forest, TotalOrder, Roots;
    assert x in Roots(le, q);
    RootsAt(le, p, x);
    RootsAt(le, q, x);
    RootIsRoot(le, q, x);
  }

  lemma RootIsRoot<N(!new)>(le: (N, N) -> bool, p: Parents<N>, x: N)
    requires TotalOrder(le) && Forest(le, p) && x in p
    ensures Root(le, p, x) in p && p[Root(le, p, x)] == Root(le, p, x)
  {
  }

  // ---------------------------------------------------------------- all cases

  ghost function SessionLinks<N, S>(space: N, sessions: seq<S>): set<Link<N, S>> {
    if sessions == [] then {}
    else SessionLinks(space, sessions[..|sessions| - 1]) + {Link(space, sessions[|sessions| - 1])}
  }

  ghost function QuestionLinks<N, S>(space: N, questions: seq<seq<S>>): set<Link<N, S>> {
    if questions == [] then {}
    else QuestionLinks(space, questions[..|questions| - 1]) + SessionLinks(space, questions[|questions| - 1])
  }

  /** Every "case carries session" fact of the input. */
  ghost function CaseLinks<N, S>(cases: seq<Case<N, S>>): set<Link<N, S>> {
    if cases == [] then {}
    else
      var last := cases[|cases| - 1];
      CaseLinks(cases[..|cases| - 1]) + QuestionLinks(last.space, last.questions)
  }

  function Names<N(==), S(==)>(cases: seq<Case<N, S>>): set<N> { set c | c in cases :: c.space }

  lemma {:induction false} IdentityRoots<N(!new), S(!new)>(le: (N, N) -> bool, p: Parents<N>)
    requires TotalOrder(le) && forall x :: x in p ==> p[x] == x
    ensures Tracks<N, S>(le, {}, p, map[])
  {
    var none: set<Link<N, S>> := {};
    assert Forest(le, p);
    forall a, b | a in p && b in p ensures Root(le, p, a) == Root(le, p, b) <==> Connected(none, a, b) {
      ConnectedRefl(none, a);
      if Connected(none, a, b) {
        assert Respects(none, Roots(le, p));
        ConnectedKeepsTag(none, Roots(le, p), a, b);
      }
    }
  }

  /** What the clustering promises: one label per case; equal labels exactly for cases joined by a chain of shared
      gold sessions; the label is the least name of its component. */
  ghost predicate IsClustering<N(!new), S(!new)>(le: (N, N) -> bool, names: set<N>, links: set<Link<N, S>>, out: map<N, N>) {
    && out.Keys == names
    && (forall a, b :: a in names && b in names ==> (out[a] == out[b] <==> Connected(links, a, b)))
    && (forall a :: a in names ==> out[a] in names && Connected(links, a, out[a]))
    && (forall a, b :: a in names && b in names && Connected(links, a, b) ==> le(out[a], b))
  }

  lemma RootsAreClustering<N(!new), S(!new)>(le: (N, N) -> bool, links: set<Link<N, S>>, p: Parents<N>, owners: map<S, N>)
    requires TotalOrder(le) && Tracks(le, links, p, owners)
    ensures Forest(le, p) && IsClustering(le, p.Keys, links, Roots(le, p))
  {
    hide Forest, TotalOrder, Connected, Roots;
    var out := Roots(le, p);
    forall a | a in p ensures out[a] in p && Connected(links, a, out[a]) {
      RootsAt(le, p, a);
      RootIsRoot(le, p, a);
      RootsAt(le, p, out[a]);
      RootOfRoot(le, p, a);
    }
    forall a, b | a in p && b in p && Connected(links, a, b) ensures le(out[a], b) {
      RootsAt(le, p, b);
      assert out[a] == out[b];
    }
  }

  lemma RootOfRoot<N(!new)>(le: (N, N) -> bool, p: Parents<N>, x: N)
    requires TotalOrder(le) && Forest(le, p) && x in p
    ensures Root(le, p, Root(le, p, x)) == Root(le, p, x)
  {
    hide Forest, TotalOrder;
    RootIsRoot(le, p, x);
  }

  method VisitQuestion<N(==, !new), S(==, !new)>(le: (N, N) -> bool, parents: Parents<N>, owners: map<S, N>,
                                                 space: N, sessions: seq<S>, ghost links: set<Link<N, S>>)
      returns (p: Parents<N>, o: map<S, N>)
    requires TotalOrder(le) && Tracks(le, links, parents, owners) && space in parents
    ensures Tracks(le, links + SessionLinks(space, sessions), p, o) && p.Keys == parents.Keys
  {
    hide Tracks, TotalOrder;
    p, o := parents, owners;
    ghost var done := links;
    assert links + {} == links;
    for k := 0 to |sessions|
      invariant Tracks(le, done, p, o) && p.Keys == parents.Keys
      invariant done == links + SessionLinks(space, sessions[..k])
    {
      p, o := VisitSession(le, p, o, space, sessions[k], done);
      assert sessions[..k + 1][..k] == sessions[..k];
      done := done + {Link(space, sessions[k])};
    }
    assert sessions[..|sessions|] == sessions;
  }

  method VisitCase<N(==, !new), S(==, !new)>(le: (N, N) -> bool, parents: Parents<N>, owners: map<S, N>,
                                             c: Case<N, S>, ghost links: set<Link<N, S>>)
      returns (p: Parents<N>, o: map<S, N>)
    requires TotalOrder(le) && Tracks(le, links, parents, owners) && c.space in parents
    ensures Tracks(le, links + QuestionLinks(c.space, c.questions), p, o) && p.Keys == parents.Keys
  {
    hide Tracks, TotalOrder, SessionLinks;
    p, o := parents, owners;
    ghost var done := links;
    assert links + {} == links;
    for j := 0 to |c.questions|
      invariant Tracks(le, done, p, o) && p.Keys == parents.Keys
      invariant done == links + QuestionLinks(c.space, c.questions[..j])
    {
      p, o := VisitQuestion(le, p, o, c.space, c.questions[j], done);
      assert c.questions[..j + 1][..j] == c.questions[..j];
      done := done + SessionLinks(c.space, c.questions[j]);
    }
    assert c.questions[..|c.questions|] == c.questions;
  }

  method SharedSourceClusters<N(==, !new), S(==, !new)>(le: (N, N) -> bool, cases: seq<Case<N, S>>)
      returns (out: map<N, N>)
    requires TotalOrder(le)
    ensures IsClustering(le, Names(cases), CaseLinks(cases), out)
  {
    hide TotalOrder, Tracks, IsClustering, QuestionLinks;
    var parents: Parents<N> := map x | x in Names(cases) :: x;
    var owners: map<S, N> := map[];
    IdentityRoots<N, S>(le, parents);
    ghost var links: set<Link<N, S>> := {};
    for i := 0 to |cases|
      invariant Tracks(le, links, parents, owners) && parents.Keys == Names(cases)
      invariant links == CaseLinks(cases[..i])
    {
      var c := cases[i];
      assert c in cases && c.space in Names(cases);
      parents, owners := VisitCase(le, parents, owners, c, links);
      assert cases[..i + 1][..i] == cases[..i];
      links := links + QuestionLinks(c.space, c.questions);
    }
    assert cases[..|cases|] == cases;
    RootsAreClustering(le, links, parents, owners);
    out := CollectRoots(le, parents);
  }

  /** The final dictionary comprehension, which still halves paths as it reads the roots. */
  method CollectRoots<N(==, !new)>(le: (N, N) -> bool, parents: Parents<N>) returns (out: map<N, N>)
    requires TotalOrder(le) && Forest(le, parents)
    ensures out == Roots(le, parents)
  {
    hide Forest, TotalOrder, Roots;
    out := map[];
    var p, todo := parents, parents.Keys;
    while todo != {}
      invariant Forest(le, p) && p.Keys == parents.Keys && todo <= parents.Keys
      invariant Roots(le, p) == Roots(le, parents)
      invariant out.Keys == parents.Keys - todo
      invariant forall y :: y in out ==> out[y] == Roots(le, parents)[y]
      decreases |todo|
    {
      var x :| x in todo;
      var r;
      r, p := FindRoot(le, p, x);
      out := out[x := r];
      todo := todo - {x};
    }
  }

  // ---------------------------------------------------------------- uniqueness and order independence

  /** The promise determines the labels. */
  lemma ClusteringIsUnique<N(!new), S(!new)>(le: (N, N) -> bool, names: set<N>, links: set<Link<N, S>>,
                                             out1: map<N, N>, out2: map<N, N>)
    requires TotalOrder(le) && IsClustering(le, names, links, out1) && IsClustering(le, names, links, out2)
    ensures out1 == out2
  {
    hide Connected;
    forall a | a in names ensures out1[a] == out2[a] {
      assert le(out1[a], out2[a]) && le(out2[a], out1[a]);
    }
  }

  lemma {:induction false} SessionLinksAre<N(!new), S(!new)>(space: N, sessions: seq<S>, l: Link<N, S>)
    ensures l in SessionLinks(space, sessions) <==> l.space == space && l.session in sessions
  {
    if sessions != [] {
      var n := |sessions| - 1;
      SessionLinksAre(space, sessions[..n], l);
      assert sessions == sessions[..n] + [sessions[n]];
    }
  }

  lemma {:induction false} QuestionLinksAre<N(!new), S(!new)>(space: N, questions: seq<seq<S>>, l: Link<N, S>)
    ensures l in QuestionLinks(space, questions) <==> l.space == space && exists q :: q in questions && l.session in q
  {
    if questions != [] {
      var n := |questions| - 1;
      QuestionLinksAre(space, questions[..n], l);
      SessionLinksAre(space, questions[n], l);
      assert questions == questions[..n] + [questions[n]];
    }
  }

  lemma CarriesAppended<N(!new), S(!new)>(cases: seq<Case<N, S>>, c: Case<N, S>, l: Link<N, S>)
    ensures Carries(cases + [c], l) <==> Carries(cases, l) || (c.space == l.space && exists q :: q in c.questions && l.session in q)
  {
    if Carries(cases, l) {
      var d, q :| d in cases && q in d.questions && d.space == l.space && l.session in q;
      assert d in cases + [c];
    }
    if q :| c.space == l.space && q in c.questions && l.session in q { assert c in cases + [c]; }
  }

  lemma {:induction false} CaseLinksAre<N(!new), S(!new)>(cases: seq<Case<N, S>>, l: Link<N, S>)
    ensures l in CaseLinks(cases) <==> Carries(cases, l)
  {
    if cases != [] {
      var n := |cases| - 1;
      CaseLinksAre(cases[..n], l);
      QuestionLinksAre(cases[n].space, cases[n].questions, l);
      assert cases == cases[..n] + [cases[n]];
      CarriesAppended(cases[..n], cases[n], l);
    }
  }

  /** Some question of a case of that name lists the session. */
  ghost predicate Carries<N(!new), S(!new)>(cases: seq<Case<N, S>>, l: Link<N, S>) {
    exists c, q :: c in cases && q in c.questions && c.space == l.space && l.session in q
  }

  /** The result depends only on the case names and on which name carries which session: not on the order of the cases,
      of the questions in a case or of the sessions in a question, nor on repeats of any of them. */
  lemma OrderDoesNotMatter<N(!new), S(!new)>(le: (N, N) -> bool, cases1: seq<Case<N, S>>, cases2: seq<Case<N, S>>,
                                             out1: map<N, N>, out2: map<N, N>)
    requires TotalOrder(le) && Names(cases1) == Names(cases2) && forall l :: Carries(cases1, l) <==> Carries(cases2, l)
    requires IsClustering(le, Names(cases1), CaseLinks(cases1), out1)
    requires IsClustering(le, Names(cases2), CaseLinks(cases2), out2)
    ensures out1 == out2
  {
    hide IsClustering, CaseLinks, TotalOrder;
    forall l ensures l in CaseLinks(cases1) <==> l in CaseLinks(cases2) {
      CaseLinksAre(cases1, l);
      CaseLinksAre(cases2, l);
    }
    assert CaseLinks(cases1) == CaseLinks(cases2);
    ClusteringIsUnique(le, Names(cases1), CaseLinks(cases1), out1, out2);
  }

  /** A case without annotations falls back to its own identity. */
  lemma UnannotatedKeepsItsName<N(!new), S(!new)>(le: (N, N) -> bool, names: set<N>, links: set<Link<N, S>>, out: map<N, N>, a: N)
    requires IsClustering(le, names, links, out) && a in names && forall s :: Link(a, s) !in links
    ensures out[a] == a
  {
    var path :| Joins(links, path, a, out[a]);
    assert |path| > 1 ==> Share(links, path[0], path[1]);
  }

  /** The function as the benchmark calls it, on names and session ids that are strings. */
  method ClusterByName(cases: seq<Case<string, string>>) returns (out: map<string, string>)
    ensures IsClustering(LexLe, Names(cases), CaseLinks(cases), out)
  {
    hide IsClustering;
    LexIsTotalOrder();
    out := SharedSourceClusters(LexLe, cases);
  }
}
