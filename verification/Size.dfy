/** The size of a dead-free table depends on the variable order and the roots only. */
module Size {
  import opened Sets
  import opened Functions
  import opened Graph
  import opened RefCount
  import opened State
  import opened Swap

  ghost predicate Root(t: Table, n: nat) {
    t.ext[n] > 0 || n in Frozen(t.refs)
  }

  /** The roots of s are still there with their functions. */
  ghost predicate Preserves(s: Table, t: Table) {
    && t.ext == s.ext && FrozenKept(s.refs, t.refs)
    && (forall n {:trigger Root(s, n)} :: Root(s, n) && n in s.g ==>
          n in t.g && n in s.den && n in t.den && t.den[n] == s.den[n])
  }

  lemma PreservesTrans(s: Table, t: Table, u: Table)
    requires Preserves(s, t) && Preserves(t, u)
    ensures Preserves(s, u)
  {
    forall n | Root(s, n) && n in s.g
      ensures n in u.g && n in s.den && n in u.den && u.den[n] == s.den[n]
    {
      assert Root(t, n);
    }
  }

  /** No dead nodes, and every unheld node has a parent. */
  ghost predicate Clean(t: Table, ranks: seq<nat>) {
    TableOk(t, ranks) && DeadSet(t.refs) == {}
  }

  /** In no order of the variables does a dead-free table with the roots of s have more than N
      nodes. */
  ghost predicate Bounded(s: Table, N: nat) {
    forall u, ranks {:trigger Preserves(s, u), Clean(u, ranks)} ::
      Clean(u, ranks) && Preserves(s, u) && FrozenSame(s.refs, u.refs) ==> |u.g| <= N
  }

  /** No node is held so often that an exchange of levels in a table of N nodes could freeze it:
      at most two edges from each node lead to it, and the exchange adds at most four a node. */
  ghost predicate Room(s: Table, N: nat) {
    forall n {:trigger s.ext[n]} :: n !in Frozen(s.refs) ==> s.ext[n] + 6 * N < MAXREF
  }

  /** No reordering can freeze a node. */
  ghost predicate Spacious(s: Table) {
    exists N: nat {:trigger Bounded(s, N)} :: Bounded(s, N) && Room(s, N)
  }

  /** What reordering keeps: the roots, and with enough room the saturated counts too. */
  ghost predicate RootsKept(s: Table, t: Table) {
    Preserves(s, t) && (Spacious(s) ==> FrozenSame(s.refs, t.refs))
  }

  lemma SpaciousKept(s: Table, t: Table)
    requires Spacious(s) && Preserves(s, t) && FrozenSame(s.refs, t.refs)
    ensures Spacious(t)
  {
    var N: nat :| Bounded(s, N) && Room(s, N);
    forall u, ranks | Clean(u, ranks) && Preserves(t, u) && FrozenSame(t.refs, u.refs)
      ensures |u.g| <= N
    {
      PreservesTrans(s, t, u);
    }
    assert Bounded(t, N) && Room(t, N);
  }

  lemma RootsTrans(s: Table, t: Table, u: Table)
    requires RootsKept(s, t) && RootsKept(t, u)
    ensures RootsKept(s, u)
  {
    hide Preserves, Spacious;
    PreservesTrans(s, t, u);
    if Spacious(s) {
      SpaciousKept(s, t);
    }
  }

  lemma RootsRefl(s: Table)
    requires s.den.Keys == s.g.Keys
    ensures RootsKept(s, s)
  {
  }

  /** In a dead-free table a count is at most the outside references and two per node. */
  lemma CountBound(t: Table, ranks: seq<nat>, n: nat)
    requires Clean(t, ranks) && n !in Frozen(t.refs)
    ensures Count(t.refs, n) <= t.ext[n] + 2 * |t.g|
  {
    assert Balanced(t.g, t.refs, t.ext, multiset{}, Live(t.g, t.refs), n);
    SubsetSize(ThenParents(t.g, Live(t.g, t.refs), n), t.g.Keys);
    SubsetSize(ElseParents(t.g, Live(t.g, t.refs), n), t.g.Keys);
    assert |t.g| == |t.g.Keys|;
  }

  /** With room, exchanging two levels freezes nothing. */
  lemma SwapStaysUnfrozen(t: Table, ranks: seq<nat>, u: Table, N: nat)
    requires Clean(t, ranks) && FrozenKept(t.refs, u.refs) && Grows(t, u, 2 * |t.g|)
    requires |t.g| <= N && Room(t, N)
    ensures FrozenSame(t.refs, u.refs)
  {
    forall n | n !in Frozen(t.refs)
      ensures n !in Frozen(u.refs)
    {
      CountBound(t, ranks, n);
      assert t.ext[n] + 6 * N < MAXREF;
      assert Count(u.refs, n) < MAXREF;
    }
  }

  lemma SwapKeepsRoots(t: Table, ranks: seq<nat>, u: Table, v: nat, w: nat)
    requires Clean(t, ranks) && Swapped(t, u, v, w) && Grows(t, u, 2 * |t.g|)
    ensures RootsKept(t, u)
  {
    assert Preserves(t, u);
    if Spacious(t) {
      hide TableOk, Swapped, DeadSet, Room, Grows;
      var N: nat :| Bounded(t, N) && Room(t, N);
      assert |t.g| <= N by { CleanSelf(t, ranks, N); }
      assert FrozenKept(t.refs, u.refs) by { assert Preserves(t, u); }
      SwapStaysUnfrozen(t, ranks, u, N);
    }
  }

  lemma CleanSelf(t: Table, ranks: seq<nat>, N: nat)
    requires Clean(t, ranks) && Bounded(t, N)
    ensures |t.g| <= N
  {
    assert Preserves(t, t);
  }

  /** A node of t with the function that n has in s. */
  ghost predicate Matched(s: Table, t: Table, n: nat) {
    n in s.den && exists m :: m in t.g && m in t.den && t.den[m] == s.den[n]
  }

  /** Equal functions test the same variable first and have equal branches. */
  lemma SameTop(s: Table, t: Table, ranks: seq<nat>, p: nat, q: nat)
    requires WF(s.g, ranks, s.den) && WF(t.g, ranks, t.den) && p in s.g && q in t.g
    requires s.den[p] == t.den[q]
    ensures s.g[p].varid == t.g[q].varid
    ensures Sem(s.den, s.g[p].thn) == Sem(t.den, t.g[q].thn)
    ensures Sem(s.den, s.g[p].els) == Sem(t.den, t.g[q].els)
  {
    var ep, eq := Edge(p, false), Edge(q, false);
    var x, y := s.g[p].varid, t.g[q].varid;
    assert NodeOk(s.g, ranks, p) && NodeOk(t.g, ranks, q);
    TopVariableMatters(s.g, ranks, s.den, ep);
    TopVariableMatters(t.g, ranks, t.den, eq);
    if ranks[x] < ranks[y] {
      SemIndep(t.g, ranks, t.den, eq, x);
    } else if ranks[y] < ranks[x] {
      SemIndep(s.g, ranks, s.den, ep, y);
    }
    CofactorsIndep(s.g, ranks, s.den, ep);
    CofactorsIndep(t.g, ranks, t.den, eq);
    SemExpand(s.g, s.den, ep);
    SemExpand(t.g, t.den, eq);
    ShannonInjective(x, Sem(s.den, s.g[p].thn), Sem(s.den, s.g[p].els),
                        Sem(t.den, t.g[q].thn), Sem(t.den, t.g[q].els));
  }

  /** Edges with equal functions have equal polarity, and both or neither are terminal. */
  lemma SamePolarity(s: Table, t: Table, ranks: seq<nat>, e: Edge, e': Edge)
    requires WF(s.g, ranks, s.den) && WF(t.g, ranks, t.den) && e.node in s.g && In(t.g, e')
    requires Sem(s.den, e) == Sem(t.den, e')
    ensures e.neg == e'.neg && e'.node in t.g && s.den[e.node] == t.den[e'.node]
  {
    var a := AllOnes(ranks);
    PositiveIffAllOnes(s.g, ranks, s.den, e, a);
    PositiveIffAllOnes(t.g, ranks, t.den, e', a);
    NotNot(At(s.den, e.node));
    NotNot(At(t.den, e'.node));
    assert 0 !in s.den && 0 !in t.den;
    if e'.node == 0 {
      Canonical(s.g, ranks, s.den, Edge(e.node, false), ONE);
    }
  }

  lemma {:induction false} Match(s: Table, t: Table, ranks: seq<nat>, n: nat)
    requires Clean(s, ranks) && Clean(t, ranks) && Preserves(s, t) && n in s.g
    ensures Matched(s, t, n)
    decreases Rank(s.g, ranks, Edge(n, false))
  {
    if Root(s, n) {
      assert t.den[n] == s.den[n];
    } else {
      var p := NeedsParent(s, ranks, n);
      assert NodeOk(s.g, ranks, p);
      assert NodeOk(s.g, ranks, n);
      Match(s, t, ranks, p);
      var q :| q in t.g && q in t.den && t.den[q] == s.den[p];
      SameTop(s, t, ranks, p, q);
      assert NodeOk(t.g, ranks, q);
      if s.g[p].thn.node == n {
        SamePolarity(s, t, ranks, s.g[p].thn, t.g[q].thn);
      } else {
        SamePolarity(s, t, ranks, s.g[p].els, t.g[q].els);
      }
    }
  }

  lemma NeedsParent(s: Table, ranks: seq<nat>, n: nat) returns (p: nat)
    requires Clean(s, ranks) && n in s.g && !Root(s, n)
    ensures p in s.g && Hits(s.g[p], n) > 0
  {
    assert Balanced(s.g, s.refs, s.ext, multiset{}, Live(s.g, s.refs), n);
    assert n in s.refs && n !in DeadSet(s.refs);
    assert n !in Frozen(s.refs);
    p := HasParent(s.g, Live(s.g, s.refs), n);
  }

  /** Different nodes match different nodes. */
  lemma {:induction false} MatchedSize(s: Table, t: Table, ranks: seq<nat>, a: set<nat>, b: set<nat>)
    requires WF(s.g, ranks, s.den) && a <= s.g.Keys && b <= t.g.Keys && t.den.Keys == t.g.Keys
    requires forall n {:trigger n in a} :: n in a ==> exists m :: m in b && t.den[m] == s.den[n]
    ensures |a| <= |b|
    decreases a
  {
    if a != {} {
      var n :| n in a;
      var m :| m in b && t.den[m] == s.den[n];
      forall n' | n' in a - {n}
        ensures exists m' :: m' in b - {m} && t.den[m'] == s.den[n']
      {
        var m' :| m' in b && t.den[m'] == s.den[n'];
        if m' == m {
          Canonical(s.g, ranks, s.den, Edge(n, false), Edge(n', false));
        }
      }
      MatchedSize(s, t, ranks, a - {n}, b - {m});
    }
  }

  lemma SizeAtMost(s: Table, t: Table, ranks: seq<nat>)
    requires Clean(s, ranks) && Clean(t, ranks) && Preserves(s, t)
    ensures |s.g| <= |t.g|
  {
    forall n | n in s.g.Keys
      ensures exists m :: m in t.g.Keys && t.den[m] == s.den[n]
    {
      Match(s, t, ranks, n);
    }
    MatchedSize(s, t, ranks, s.g.Keys, t.g.Keys);
    assert |s.g| == |s.g.Keys| && |t.g| == |t.g.Keys|;
  }

  lemma RootsBack(s: Table, t: Table, ranks: seq<nat>)
    requires Clean(s, ranks) && Clean(t, ranks) && Preserves(s, t) && Frozen(t.refs) <= Frozen(s.refs)
    ensures Preserves(t, s)
  {
    forall n | Root(t, n) && n in t.g
      ensures n in s.g && n in t.den && n in s.den && s.den[n] == t.den[n]
    {
      assert Root(s, n);
      if s.ext[n] > 0 {
        HeldAlive(s, ranks, n);
      }
    }
  }

  /** With no node frozen in between, two dead-free tables of the same order and roots have the
      same size. */
  lemma SizeDetermined(s: Table, t: Table, ranks: seq<nat>)
    requires Clean(s, ranks) && Clean(t, ranks) && Preserves(s, t) && Frozen(t.refs) <= Frozen(s.refs)
    ensures |s.g| == |t.g|
  {
    SizeAtMost(s, t, ranks);
    RootsBack(s, t, ranks);
    SizeAtMost(t, s, ranks);
  }
}
