/** When reordering cannot freeze a node: a bound on the size of the table in every order of the
    variables, computed from what is held. */
module Freezing {
  import opened Sets
  import opened Functions
  import opened Graph
  import opened RefCount
  import opened State
  import opened Nearest
  import opened Swap
  import opened Size

  ghost function RootSet(t: Table): set<nat> {
    set n | n in t.g && Root(t, n)
  }

  /** Where evaluation is after the variable of rank r: at the same node, or at a child. */
  ghost function Ahead(g: Nodes, ranks: seq<nat>, n: nat, r: nat): (s: set<nat>)
    ensures |s| <= 2
  {
    if n in g && Rank(g, ranks, Edge(n, false)) == r then {g[n].thn.node, g[n].els.node} else {n}
  }

  ghost function Past(g: Nodes, ranks: seq<nat>, c: set<nat>, r: nat): set<nat> {
    set n, k | n in c && k in Ahead(g, ranks, n, r) :: k
  }

  /** The nodes at which evaluating a root can be when the variables of the first k ranks are used up. */
  ghost function Cut(t: Table, ranks: seq<nat>, k: nat): set<nat> {
    if k == 0 then RootSet(t) else Past(t.g, ranks, Cut(t, ranks, k - 1), k - 1)
  }

  lemma PastSplit(g: Nodes, ranks: seq<nat>, c: set<nat>, n: nat, r: nat)
    requires n in c
    ensures Past(g, ranks, c, r) == Past(g, ranks, c - {n}, r) + Ahead(g, ranks, n, r)
  {
  }

  lemma UnionSize(a: set<nat>, b: set<nat>)
    ensures |a + b| <= |a| + |b|
  {
    assert a + b == a + (b - a);
    SubsetSize(b - a, b);
  }

  /** At most two nodes for each one before. */
  lemma {:induction false} PastSize(g: Nodes, ranks: seq<nat>, c: set<nat>, r: nat)
    ensures |Past(g, ranks, c, r)| <= 2 * |c|
    decreases c
  {
    if c == {} {
      assert Past(g, ranks, c, r) == {};
    } else {
      var n :| n in c;
      PastSize(g, ranks, c - {n}, r);
      PastSplit(g, ranks, c, n, r);
      UnionSize(Past(g, ranks, c - {n}, r), Ahead(g, ranks, n, r));
    }
  }

  ghost function Level(g: Nodes, ranks: seq<nat>, k: nat): set<nat> {
    set n | n in g && Rank(g, ranks, Edge(n, false)) == k
  }

  ghost function Above(g: Nodes, ranks: seq<nat>, k: nat): set<nat> {
    set n | n in g && Rank(g, ranks, Edge(n, false)) < k
  }

  lemma {:induction false} CutStays(t: Table, ranks: seq<nat>, n: nat, j: nat, k: nat)
    requires n in Cut(t, ranks, j) && j <= k <= Rank(t.g, ranks, Edge(n, false))
    ensures n in Cut(t, ranks, k)
    decreases k
  {
    if j < k {
      CutStays(t, ranks, n, j, k - 1);
      assert n in Ahead(t.g, ranks, n, k - 1);
    }
  }

  lemma ParentAbove(t: Table, ranks: seq<nat>, n: nat) returns (p: nat)
    requires Clean(t, ranks) && n in t.g && !Root(t, n)
    ensures p in t.g && Hits(t.g[p], n) > 0 && Rank(t.g, ranks, Edge(p, false)) < Rank(t.g, ranks, Edge(n, false))
  {
    p := NeedsParent(t, ranks, n);
    assert NodeOk(t.g, ranks, p) && NodeOk(t.g, ranks, n);
  }

  lemma KidInCut(t: Table, ranks: seq<nat>, p: nat, n: nat, j: nat)
    requires p in Cut(t, ranks, j) && p in t.g && j == Rank(t.g, ranks, Edge(p, false)) && Hits(t.g[p], n) > 0
    ensures n in Cut(t, ranks, j + 1)
  {
    assert n in Ahead(t.g, ranks, p, j);
  }

  /** Every node is met on its level: a root from the start, any other behind its parent. */
  lemma {:induction false} InCut(t: Table, ranks: seq<nat>, n: nat)
    requires Clean(t, ranks) && n in t.g
    ensures n in Cut(t, ranks, Rank(t.g, ranks, Edge(n, false)))
    decreases Rank(t.g, ranks, Edge(n, false))
  {
    hide Clean, Hits, Rank;
    var k := Rank(t.g, ranks, Edge(n, false));
    if Root(t, n) {
      CutStays(t, ranks, n, 0, k);
    } else {
      var p := ParentAbove(t, ranks, n);
      InCut(t, ranks, p);
      var j := Rank(t.g, ranks, Edge(p, false));
      KidInCut(t, ranks, p, n, j);
      CutStays(t, ranks, n, j + 1, k);
    }
  }

  /** All nodes test one of the first V variables. */
  ghost predicate Narrow(g: Nodes, V: nat) {
    forall n {:trigger g[n]} :: n in g ==> g[n].varid < V
  }

  /** Of the first V variables, those of the first k ranks. */
  ghost function Used(ranks: seq<nat>, V: nat, k: nat): set<nat> {
    set x | 0 <= x < V && x < |ranks| && ranks[x] < k
  }

  lemma UsedSize(ranks: seq<nat>, V: nat, k: nat)
    ensures |Used(ranks, V, k)| <= V
  {
    SubsetSize(Used(ranks, V, k), UpTo(V));
  }

  lemma UsedNext(ranks: seq<nat>, V: nat, k: nat, x: nat)
    requires OrderOk(ranks) && x < |ranks| && x < V && ranks[x] == k
    ensures |Used(ranks, V, k + 1)| == |Used(ranks, V, k)| + 1
  {
    assert Used(ranks, V, k + 1) == Used(ranks, V, k) + {x};
  }

  lemma UsedSame(ranks: seq<nat>, V: nat, k: nat)
    requires forall x {:trigger ranks[x]} :: 0 <= x < |ranks| && x < V ==> ranks[x] != k
    ensures Used(ranks, V, k + 1) == Used(ranks, V, k)
  {
  }

  lemma AboveNext(g: Nodes, ranks: seq<nat>, k: nat)
    ensures |Above(g, ranks, k + 1)| <= |Above(g, ranks, k)| + |Level(g, ranks, k)|
  {
    assert Above(g, ranks, k + 1) == Above(g, ranks, k) + Level(g, ranks, k);
    UnionSize(Above(g, ranks, k), Level(g, ranks, k));
  }

  lemma LevelInCut(t: Table, ranks: seq<nat>, k: nat)
    requires Clean(t, ranks)
    ensures |Level(t.g, ranks, k)| <= |Cut(t, ranks, k)|
  {
    forall n | n in Level(t.g, ranks, k)
      ensures n in Cut(t, ranks, k)
    {
      InCut(t, ranks, n);
    }
    SubsetSize(Level(t.g, ranks, k), Cut(t, ranks, k));
  }

  lemma NoneOnLevel(g: Nodes, ranks: seq<nat>, k: nat)
    requires Level(g, ranks, k) == {}
    ensures forall n {:trigger g[n]} {:trigger Edge(n, false)} :: n in g ==> Rank(g, ranks, Edge(n, false)) != k
  {
    forall n | n in g
      ensures Rank(g, ranks, Edge(n, false)) != k
    {
      assert n !in Level(g, ranks, k);
    }
  }

  lemma CutNext(t: Table, ranks: seq<nat>, k: nat)
    ensures |Cut(t, ranks, k + 1)| <= 2 * |Cut(t, ranks, k)|
    ensures Level(t.g, ranks, k) == {} ==> |Cut(t, ranks, k + 1)| <= |Cut(t, ranks, k)|
  {
    var c := Cut(t, ranks, k);
    PastSize(t.g, ranks, c, k);
    if Level(t.g, ranks, k) == {} {
      NoneOnLevel(t.g, ranks, k);
      assert Past(t.g, ranks, c, k) <= c;
      SubsetSize(Past(t.g, ranks, c, k), c);
    }
  }

  /** A rank with no variable among the first V has no nodes. */
  lemma EmptyLevel(g: Nodes, ranks: seq<nat>, V: nat, k: nat)
    requires Shape(g, ranks) && Narrow(g, V)
    requires forall x {:trigger ranks[x]} :: 0 <= x < |ranks| && x < V ==> ranks[x] != k
    ensures Level(g, ranks, k) == {}
  {
    forall n | n in g
      ensures Rank(g, ranks, Edge(n, false)) != k
    {
      assert NodeOk(g, ranks, n);
    }
  }

  lemma Doubled(R: nat, p: nat, cut: nat, above: nat)
    requires cut <= R * p && above + R <= R * p
    ensures 2 * cut <= R * (2 * p) && above + cut + R <= R * (2 * p)
  {
    assert R * (2 * p) == R * p + R * p;
  }

  /** The cut below k ranks and the nodes above it, in terms of the variables used up. */
  ghost predicate CutFits(t: Table, ranks: seq<nat>, V: nat, k: nat) {
    var p, R := Pow2(|Used(ranks, V, k)|), |RootSet(t)|;
    |Cut(t, ranks, k)| <= R * p && |Above(t.g, ranks, k)| + R <= R * p
  }

  lemma CutStart(t: Table, ranks: seq<nat>, V: nat)
    ensures CutFits(t, ranks, V, 0)
  {
    assert Used(ranks, V, 0) == {} && Above(t.g, ranks, 0) == {};
  }

  lemma CutUsed(t: Table, ranks: seq<nat>, V: nat, k: nat, x: nat)
    requires Clean(t, ranks) && CutFits(t, ranks, V, k) && x < |ranks| && x < V && ranks[x] == k
    ensures CutFits(t, ranks, V, k + 1)
  {
    OrderAndShape(t, ranks);
    CutNext(t, ranks, k);
    AboveNext(t.g, ranks, k);
    UsedNext(ranks, V, k, x);
    LevelInCut(t, ranks, k);
    hide Cut, Used, Above, Level, TableOk, DeadSet, Clean, RootSet;
    Doubled(|RootSet(t)|, Pow2(|Used(ranks, V, k)|), |Cut(t, ranks, k)|, |Above(t.g, ranks, k)|);
    assert Pow2(|Used(ranks, V, k)| + 1) == 2 * Pow2(|Used(ranks, V, k)|);
  }

  lemma CutUnused(t: Table, ranks: seq<nat>, V: nat, k: nat)
    requires Clean(t, ranks) && Narrow(t.g, V) && CutFits(t, ranks, V, k)
    requires forall x {:trigger ranks[x]} :: 0 <= x < |ranks| && x < V ==> ranks[x] != k
    ensures CutFits(t, ranks, V, k + 1)
  {
    OrderAndShape(t, ranks);
    CutNext(t, ranks, k);
    AboveNext(t.g, ranks, k);
    UsedSame(ranks, V, k);
    EmptyLevel(t.g, ranks, V, k);
    hide Cut, Used, Above, Level, TableOk, DeadSet, Clean, RootSet;
  }

  lemma {:induction false} CutSize(t: Table, ranks: seq<nat>, V: nat, k: nat)
    requires Clean(t, ranks) && Narrow(t.g, V)
    ensures CutFits(t, ranks, V, k)
  {
    hide CutFits, Clean, Narrow;
    if k == 0 {
      CutStart(t, ranks, V);
    } else {
      CutSize(t, ranks, V, k - 1);
      if x: nat :| x < |ranks| && x < V && ranks[x] == k - 1 {
        CutUsed(t, ranks, V, k - 1, x);
      } else {
        CutUnused(t, ranks, V, k - 1);
      }
    }
  }

  lemma OrderAndShape(t: Table, ranks: seq<nat>)
    requires Clean(t, ranks)
    ensures OrderOk(ranks) && Shape(t.g, ranks)
  {
  }

  lemma {:induction false} Pow2Grows(a: nat, b: nat)
    requires a <= b
    ensures Pow2(a) <= Pow2(b)
    decreases b
  {
    if a < b {
      Pow2Grows(a, b - 1);
    }
  }

  lemma Scale(R: nat, p: nat, q: nat)
    requires p <= q
    ensures R * p <= R * q
  {
  }

  /** A dead-free table over V variables has fewer than 2^V nodes for each root. */
  lemma TableSize(t: Table, ranks: seq<nat>, V: nat)
    requires Clean(t, ranks) && Narrow(t.g, V)
    ensures |t.g| + |RootSet(t)| <= |RootSet(t)| * Pow2(V)
  {
    CutSize(t, ranks, V, |ranks|);
    UsedSize(ranks, V, |ranks|);
    Pow2Grows(|Used(ranks, V, |ranks|)|, V);
    Scale(|RootSet(t)|, Pow2(|Used(ranks, V, |ranks|)|), Pow2(V));
    forall n | n in t.g
      ensures n in Above(t.g, ranks, |ranks|)
    {
      assert NodeOk(t.g, ranks, n);
    }
    SubsetSize(t.g.Keys, Above(t.g, ranks, |ranks|));
    assert |t.g| == |t.g.Keys|;
  }

  // ---- in every order the nodes test the same variables

  /** What no root depends on, no node depends on. */
  lemma {:induction false} NodeIndep(t: Table, ranks: seq<nat>, n: nat, x: nat)
    requires Clean(t, ranks) && n in t.g
    requires forall r {:trigger r in RootSet(t)} :: r in RootSet(t) ==> Indep(t.den[r], x)
    ensures Indep(t.den[n], x)
    decreases Rank(t.g, ranks, Edge(n, false))
  {
    if Root(t, n) {
      assert n in RootSet(t);
    } else {
      var p := NeedsParent(t, ranks, n);
      assert NodeOk(t.g, ranks, p) && NodeOk(t.g, ranks, n);
      NodeIndep(t, ranks, p, x);
      ChildIndep(t, ranks, p, n, x);
    }
  }

  lemma ChildIndep(t: Table, ranks: seq<nat>, p: nat, n: nat, x: nat)
    requires WF(t.g, ranks, t.den) && p in t.g && n in t.g && Hits(t.g[p], n) > 0 && Indep(t.den[p], x)
    ensures Indep(t.den[n], x)
  {
    var nd := t.g[p];
    var e := if nd.thn.node == n then nd.thn else nd.els;
    assert NodeDenotes(t.g, t.den, p);
    CofactorsIndep(t.g, ranks, t.den, Edge(p, false));
    assert x != nd.varid by { TopVariableMatters(t.g, ranks, t.den, Edge(p, false)); }
    BranchIndep(nd.varid, Sem(t.den, nd.thn), Sem(t.den, nd.els), x);
    IndepNot(t.den[n], x);
    assert Indep(Sem(t.den, e), x);
  }

  /** No function depends on a variable the package does not have. */
  lemma {:induction false} UnknownIndep(g: Nodes, ranks: seq<nat>, den: Den, e: Edge, x: nat)
    requires WF(g, ranks, den) && In(g, e) && x >= |ranks|
    ensures Indep(Sem(den, e), x)
    decreases TERMID - Rank(g, ranks, e)
  {
    if e.node in g {
      var nd := g[e.node];
      assert NodeOk(g, ranks, e.node) && NodeDenotes(g, den, e.node);
      RankBound(g, ranks, nd.thn);
      RankBound(g, ranks, nd.els);
      UnknownIndep(g, ranks, den, nd.thn, x);
      UnknownIndep(g, ranks, den, nd.els, x);
      ShannonIndepOther(nd.varid, Sem(den, nd.thn), Sem(den, nd.els), x);
      IndepNot(den[e.node], x);
    }
  }

  lemma SameRoots(s: Table, ranks: seq<nat>, u: Table, ranks': seq<nat>)
    requires TableOk(s, ranks) && Clean(u, ranks') && Preserves(s, u) && FrozenSame(s.refs, u.refs)
    ensures RootSet(u) == RootSet(s) && forall n {:trigger n in RootSet(u)} :: n in RootSet(u) ==> n in s.den && u.den[n] == s.den[n]
  {
    forall n | n in u.g && Root(u, n)
      ensures n in s.g && Root(s, n)
    {
      assert n != 0 by { Nonzero(u, ranks', n); }
      if s.ext[n] > 0 {
        HeldAlive(s, ranks, n);
      }
    }
  }

  lemma Nonzero(u: Table, ranks: seq<nat>, n: nat)
    requires TableOk(u, ranks) && n in u.g
    ensures n != 0
  {
  }

  lemma StaysNarrow(s: Table, ranks: seq<nat>, u: Table, ranks': seq<nat>)
    requires TableOk(s, ranks) && Clean(u, ranks') && Preserves(s, u) && FrozenSame(s.refs, u.refs)
    ensures Narrow(u.g, |ranks|)
  {
    SameRoots(s, ranks, u, ranks');
    forall n | n in u.g
      ensures u.g[n].varid < |ranks|
    {
      var x := u.g[n].varid;
      if x >= |ranks| {
        forall r | r in RootSet(u)
          ensures Indep(u.den[r], x)
        {
          UnknownIndep(s.g, ranks, s.den, Edge(r, false), x);
        }
        NodeIndep(u, ranks', n, x);
        TopVariableMatters(u.g, ranks', u.den, Edge(n, false));
      }
    }
  }

  /** A condition that can be computed before any reordering: with V variables, R different nodes
      held or frozen, and no other count near saturation, nothing gets frozen. */
  lemma RoomEnough(s: Table, ranks: seq<nat>)
    requires TableOk(s, ranks) && Room(s, |RootSet(s)| * Pow2(|ranks|))
    ensures Spacious(s)
  {
    var N := |RootSet(s)| * Pow2(|ranks|);
    forall u, ranks' | Clean(u, ranks') && Preserves(s, u) && FrozenSame(s.refs, u.refs)
      ensures |u.g| <= N
    {
      SameRoots(s, ranks, u, ranks');
      StaysNarrow(s, ranks, u, ranks');
      TableSize(u, ranks', |ranks|);
    }
    assert Bounded(s, N);
  }
}
