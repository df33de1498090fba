/** bdd_reorder_var promises to move its variable whatever the size; the code gives up. A table of
    three nodes for which it must. */
module ReorderLimit {
  import opened Sets
  import opened Functions
  import opened Graph
  import opened RefCount
  import opened Nearest
  import opened State
  import opened Tables
  import opened Swap
  import opened Size
  import opened Reorder

  ghost function Lit(v: nat): Fn {
    Shannon(v, True(), iset{})
  }

  /** The function if v0 then v1 else v2, held by one reference, in the order v0, v1, v2. */
  ghost function Three(): Table {
    Table(map[1 := Node(0, Edge(2, false), Edge(3, false)), 2 := Node(1, ONE, ZERO), 3 := Node(2, ONE, ZERO)],
          map[0 := 4, 1 := 1, 2 := 1, 3 := 1],
          map[1 := Shannon(0, Lit(1), Lit(2)), 2 := Lit(1), 3 := Lit(2)],
          multiset{1})
  }

  lemma ThreeShape()
    ensures Shape(Three().g, [0, 1, 2])
  {
    var g := Three().g;
    assert NodeOk(g, [0, 1, 2], 1) && NodeOk(g, [0, 1, 2], 2) && NodeOk(g, [0, 1, 2], 3);
    forall n, k | Twins(g, n, k)
      ensures n == k
    {
      assert n in {1, 2, 3} && k in {1, 2, 3};
    }
  }

  lemma ThreeDenotes()
    ensures Denotes(Three().g, Three().den)
  {
    hide Shannon, True;
    var s := Three();
    assert Not(True()) == iset{} by { NotTrue(); }
    assert NodeDenotes(s.g, s.den, 2) && NodeDenotes(s.g, s.den, 3);
    assert Sem(s.den, Edge(2, false)) == s.den[2] && Sem(s.den, Edge(3, false)) == s.den[3];
    assert NodeDenotes(s.g, s.den, 1);
  }

  lemma NotTrue()
    ensures Not(True()) == iset{}
  {
  }

  lemma ThreeCounts()
    ensures RefsOk(Three().g, Three().refs, Three().ext, multiset{}, {1, 2, 3})
  {
    hide InEdges;
    var s := Three();
    forall n: nat
      ensures Balanced(s.g, s.refs, s.ext, multiset{}, {1, 2, 3}, n)
    {
      ThreeEdges(n);
    }
  }

  lemma ThreeEdges(n: nat)
    ensures var g := Three().g; InEdges(g, {1, 2, 3}, n) == Hits(g[1], n) + Hits(g[2], n) + Hits(g[3], n)
  {
    var g := Three().g;
    assert InEdges(g, {}, n) == 0;
    AddParent(g, {}, 1, n);
    AddParent(g, {1}, 2, n);
    AddParent(g, {1, 2}, 3, n);
    assert {} + {1} == {1} && {1} + {2} == {1, 2} && {1, 2} + {3} == {1, 2, 3};
  }

  lemma ThreeOk()
    ensures TableOk(Three(), [0, 1, 2]) && Live(Three().g, Three().refs) == {1, 2, 3}
  {
    ThreeShape();
    ThreeDenotes();
    ThreeCounts();
    hide Shape, Denotes, RefsOk;
    assert Live(Three().g, Three().refs) == {1, 2, 3};
  }

  /** An edge whose function's first variable is on rank r leads to a node of that rank. */
  lemma TopNode(u: Table, ranks: seq<nat>, space: seq<nat>, e: Edge, r: nat)
    requires TableOk(u, ranks) && Inverse(ranks, space) && In(u.g, e) && r < |space| && space[r] < |ranks|
    requires !Indep(Sem(u.den, e), space[r])
    requires forall q {:trigger space[q]} :: 0 <= q < r ==> Indep(Sem(u.den, e), space[q])
    ensures e.node in u.g && Rank(u.g, ranks, e) == r
    ensures In(u.g, CofPos(u.g, e)) && Sem(u.den, CofPos(u.g, e)) == Cof(Sem(u.den, e), space[r], true)
    ensures In(u.g, CofNeg(u.g, e)) && Sem(u.den, CofNeg(u.g, e)) == Cof(Sem(u.den, e), space[r], false)
  {
    assert ranks[space[r]] == r;
    if ranks[space[r]] < Rank(u.g, ranks, e) {
      SemIndep(u.g, ranks, u.den, e, space[r]);
    }
    TerminalRank(u.g, ranks, e);
    var v := u.g[e.node].varid;
    assert NodeOk(u.g, ranks, e.node);
    TopVariableMatters(u.g, ranks, u.den, e);
    assert space[ranks[v]] == v;
    CofactorRanks(u.g, ranks, e);
    CofactorsIndep(u.g, ranks, u.den, e);
    SemExpand(u.g, u.den, e);
    CofShannon(v, Sem(u.den, CofPos(u.g, e)), Sem(u.den, CofNeg(u.g, e)));
  }

  ghost function F(): Fn {
    Shannon(0, Lit(1), Lit(2))
  }

  /** The branches of the function over v1, and the lower branch of the first of them over v2. */
  ghost function P(): Fn {
    Cof(F(), 1, true)
  }

  ghost function Q(): Fn {
    Cof(F(), 1, false)
  }

  ghost function R(): Fn {
    Cof(P(), 2, false)
  }

  lemma Points(a: Asg)
    ensures a in F() <==> if 0 in a then 1 in a else 2 in a
    ensures a in P() <==> 0 in a || 2 in a
    ensures a in Q() <==> 0 !in a && 2 in a
    ensures a in R() <==> 0 in a
  {
    var a1, a0, a2 := Assign(a, 1, true), Assign(a, 1, false), Assign(Assign(a, 2, false), 1, true);
    assert 0 in a1 <==> 0 in a;
    assert 0 in a0 <==> 0 in a;
    assert a in R() <==> a2 in F();
  }

  lemma Depends(f: Fn, x: nat, a: Asg)
    requires (Assign(a, x, true) in f) != (Assign(a, x, false) in f)
    ensures !Indep(f, x)
  {
  }

  lemma DependsF()
    ensures !Indep(F(), 1)
  {
    hide F;
    Points({0, 1});
    Points({0});
    assert Assign({0}, 1, true) == {0, 1} && Assign({0}, 1, false) == {0};
    Depends(F(), 1, {0});
  }

  lemma DependsBranches()
    ensures !Indep(P(), 2) && !Indep(Q(), 2) && !Indep(R(), 0)
  {
    hide P, Q, R;
    Points({0});
    Points({2});
    Points({});
    assert Assign({}, 2, true) == {2} && Assign({}, 2, false) == {} && Assign({}, 0, true) == {0} && Assign({}, 0, false) == {};
    Depends(P(), 2, {});
    Depends(Q(), 2, {});
    Depends(R(), 0, {});
  }

  lemma Ignores()
    ensures Indep(P(), 1) && Indep(Q(), 1) && Indep(R(), 1) && Indep(R(), 2)
  {
    CofIndep(F(), 1, true);
    CofIndep(F(), 1, false);
    CofIndep(P(), 2, false);
    CofIndepOther(P(), 2, false, 1);
  }

  lemma Different()
    ensures P() != Q() && Q() != Not(P())
  {
    hide P, Q;
    Points({0});
    Points({2});
    Points({});
    assert {0} in P() && {0} !in Q();
    assert {2} in Q() && {2} !in Not(P());
  }

  /** n is a node of rank r. */
  ghost predicate OnRank(u: Table, ranks: seq<nat>, n: nat, r: nat) {
    n in u.g && Rank(u.g, ranks, Edge(n, false)) == r
  }

  lemma EdgeRank(u: Table, ranks: seq<nat>, e: Edge, r: nat)
    requires e.node in u.g && Rank(u.g, ranks, e) == r
    ensures OnRank(u, ranks, e.node, r)
  {
  }

  /** The node on top and the two below it. */
  lemma UpperNodes(u: Table, ranks: seq<nat>, space: seq<nat>) returns (T: Edge, E: Edge)
    requires TableOk(u, ranks) && Inverse(ranks, space) && |ranks| == 3 && space == [1, 2, 0]
    requires 1 in u.g && Sem(u.den, Edge(1, false)) == F()
    ensures In(u.g, T) && Sem(u.den, T) == P() && T.node != E.node
    ensures OnRank(u, ranks, 1, 0) && OnRank(u, ranks, T.node, 1) && OnRank(u, ranks, E.node, 1)
  {
    hide F, P, Q, R, Indep, TableOk, Inverse, CofPos, CofNeg, Rank;
    var e := Edge(1, false);
    DependsF();
    DependsBranches();
    Ignores();
    BranchNames();
    TopNode(u, ranks, space, e, 0);
    T, E := CofPos(u.g, e), CofNeg(u.g, e);
    TopNode(u, ranks, space, T, 1);
    TopNode(u, ranks, space, E, 1);
    EdgeRank(u, ranks, e, 0);
    EdgeRank(u, ranks, T, 1);
    EdgeRank(u, ranks, E, 1);
    Different();
    SameNode(u, T, E);
  }

  lemma LowerNode(u: Table, ranks: seq<nat>, space: seq<nat>, T: Edge) returns (n: nat)
    requires TableOk(u, ranks) && Inverse(ranks, space) && |ranks| == 3 && space == [1, 2, 0]
    requires In(u.g, T) && Sem(u.den, T) == P()
    ensures OnRank(u, ranks, n, 2)
  {
    hide F, P, Q, R, Indep, TableOk, Inverse, CofPos, CofNeg, Rank;
    DependsBranches();
    Ignores();
    BranchNames();
    TopNode(u, ranks, space, T, 1);
    var W := CofNeg(u.g, T);
    TopNode(u, ranks, space, W, 2);
    EdgeRank(u, ranks, W, 2);
    n := W.node;
  }

  /** With v0 behind v2 the function takes at least four nodes. */
  lemma FourNodes(u: Table, ranks: seq<nat>, space: seq<nat>)
    requires TableOk(u, ranks) && Inverse(ranks, space) && |ranks| == 3 && space == [1, 2, 0]
    requires 1 in u.g && Sem(u.den, Edge(1, false)) == F()
    ensures |u.g| >= 4
  {
    hide TableOk, Inverse, Rank, F, P;
    var T, E := UpperNodes(u, ranks, space);
    var n := LowerNode(u, ranks, space, T);
    SubsetSize({1, T.node, E.node, n}, u.g.Keys);
    FourOf(1, T.node, E.node, n);
    assert |u.g| == |u.g.Keys|;
  }

  lemma BranchNames()
    ensures P() == Cof(F(), 1, true) && Q() == Cof(F(), 1, false) && R() == Cof(P(), 2, false)
  {
  }

  lemma FourOf(a: nat, b: nat, c: nat, d: nat)
    requires a != b && a != c && a != d && b != c && b != d && c != d
    ensures |{a, b, c, d}| == 4
  {
  }

  lemma SameNode(u: Table, T: Edge, E: Edge)
    ensures T.node == E.node ==> Sem(u.den, T) == Sem(u.den, E) || Sem(u.den, T) == Not(Sem(u.den, E))
  {
    NotNot(Graph.At(u.den, T.node));
  }

  /** So moving v0 directly behind v2, which would end in this order, must fail. */
  lemma MustFail(u: Table)
    requires Clean(u, [2, 0, 1]) && RootsKept(Three(), u)
    ensures TableOk(Three(), [0, 1, 2]) && 20 * |u.g| > 21 * |Live(Three().g, Three().refs)|
  {
    ThreeOk();
    RootStays(u);
    assert Inverse([2, 0, 1], [1, 2, 0]);
    hide TableOk, RootsKept, DeadSet, F, Three, Inverse;
    FourNodes(u, [2, 0, 1], [1, 2, 0]);
    assert |{1, 2, 3}| == 3;
  }

  lemma RootStays(u: Table)
    requires RootsKept(Three(), u)
    ensures 1 in u.g && Sem(u.den, Edge(1, false)) == F()
  {
    hide Spacious;
    assert Root(Three(), 1) && 1 in Three().g;
  }

  lemma OrderIs(ranks: seq<nat>, space: seq<nat>)
    requires Inverse(ranks, space)
    ensures ranks == [0, 1, 2] ==> space == [0, 1, 2]
    ensures space == [1, 2, 0] ==> ranks == [2, 0, 1]
  {
    InverseSize(ranks, space);
    if ranks == [0, 1, 2] {
      assert space[ranks[0]] == 0 && space[ranks[1]] == 1 && space[ranks[2]] == 2;
    }
    if space == [1, 2, 0] {
      assert ranks[space[0]] == 0 && ranks[space[1]] == 1 && ranks[space[2]] == 2;
    }
  }

  /** The package at work. */
  method GivesUp(m: Manager) returns (success: bool)
    requires m.Valid() && m.reorder && m.Tab() == Three() && m.ranks == [0, 1, 2]
    modifies m`nodes, m`refs, m`den, m`ext, m`ranks, m`space, m`sop, m`cache
    ensures !success && m.Valid()
  {
    hide TableOk, CacheOk, Inverse, RootsKept, DeadSet, Live;
    OrderIs(m.ranks, m.space);
    success := ReorderVar(m, 0, 2);
    assert success ==> m.space == [1, 2, 0];
    OrderIs(m.ranks, m.space);
    if success {
      assert Clean(m.Tab(), m.ranks);
      MustFail(m.Tab());
    }
  }
}
