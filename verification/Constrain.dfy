/** The generalised cofactor and its vector form. */
module ConstrainOps {
  import opened Sets
  import opened Functions
  import opened Graph
  import opened RefCount
  import opened Nearest
  import opened State
  import opened Tables
  import opened IteOps

  /** While c ignores the variables, deciding them changes nothing. */
  lemma {:induction false} ProjSkip(space: seq<nat>, r: nat, r': nat, c: Fn, a: Asg)
    requires r <= r' <= |space| && c != iset{}
    requires forall i :: r <= i < r' ==> Indep(c, space[i])
    ensures Proj(space, r, c, a) == Proj(space, r', c, a)
    decreases r' - r
  {
    if r < r' {
      CofIndep(c, space[r], space[r] in a);
      ProjSkip(space, r + 1, r', c, a);
    }
  }

  lemma ConstrainSkip(space: seq<nat>, r: nat, f: Fn, c: Fn)
    requires r <= |space| && c != iset{} && forall i :: 0 <= i < r ==> Indep(c, space[i])
    ensures Constrain(space, f, c) == ConstrainFrom(space, r, f, c)
  {
    forall a: Asg
      ensures Proj(space, 0, c, a) == Proj(space, r, c, a)
    {
      ProjSkip(space, 0, r, c, a);
    }
  }

  /** What deciding the variable of rank r does to the two branches. */
  ghost function Branches(space: seq<nat>, r: nat, f1: Fn, f0: Fn, c1: Fn, c0: Fn): Fn
    requires r < |space|
  {
    if c0 == iset{} then ConstrainFrom(space, r + 1, f1, c1)
    else if c1 == iset{} then ConstrainFrom(space, r + 1, f0, c0)
    else Shannon(space[r], ConstrainFrom(space, r + 1, f1, c1), ConstrainFrom(space, r + 1, f0, c0))
  }

  /** Projecting with x set to b first, seen through a function with branches for x. */
  lemma BranchAt(space: seq<nat>, r: nat, x: nat, f1: Fn, f0: Fn, c: Fn, a: Asg, b: bool)
    requires Distinct(space) && r < |space| && x == space[r] && Indep(f1, x) && Indep(f0, x)
    ensures Proj(space, r + 1, c, Assign(a, x, b)) in Shannon(x, f1, f0)
       <==> Proj(space, r + 1, c, a) in if b then f1 else f0
  {
    hide Indep, Proj;
    var p := Proj(space, r + 1, c, a);
    ProjAssign(space, r + 1, c, a, x, b);
    AssignTwice(p, x, b, b);
    IndepAt(f1, x, p, b);
    IndepAt(f0, x, p, b);
  }

  lemma ProjStep(space: seq<nat>, r: nat, c1: Fn, c0: Fn, a: Asg)
    requires r < |space| && Indep(c1, space[r]) && Indep(c0, space[r])
    ensures var x := space[r];
      Proj(space, r, Shannon(x, c1, c0), a)
      == if x in a then (if c1 != iset{} then Proj(space, r + 1, c1, Assign(a, x, true))
                         else Proj(space, r + 1, c0, Assign(a, x, false)))
         else (if c0 != iset{} then Proj(space, r + 1, c0, Assign(a, x, false))
               else Proj(space, r + 1, c1, Assign(a, x, true)))
  {
    hide Indep, Shannon;
    CofShannon(space[r], c1, c0);
    AssignTwice(a, space[r], space[r] in a, true);
  }

  lemma ConstrainAt(space: seq<nat>, r: nat, f1: Fn, f0: Fn, c1: Fn, c0: Fn, a: Asg)
    requires Distinct(space) && r < |space| && (c1 != iset{} || c0 != iset{})
    requires var x := space[r]; Indep(f1, x) && Indep(f0, x) && Indep(c1, x) && Indep(c0, x)
    ensures var x := space[r];
      Proj(space, r, Shannon(x, c1, c0), a) in Shannon(x, f1, f0) <==> a in Branches(space, r, f1, f0, c1, c0)
  {
    hide Indep, Proj;
    var x := space[r];
    ProjStep(space, r, c1, c0, a);
    BranchAt(space, r, x, f1, f0, c1, a, true);
    BranchAt(space, r, x, f1, f0, c0, a, false);
  }

  /** The expansion that bdd_constrain_aux performs at its top variable. */
  lemma ConstrainStep(space: seq<nat>, r: nat, f1: Fn, f0: Fn, c1: Fn, c0: Fn)
    requires Distinct(space) && r < |space| && (c1 != iset{} || c0 != iset{})
    requires var x := space[r]; Indep(f1, x) && Indep(f0, x) && Indep(c1, x) && Indep(c0, x)
    ensures var x := space[r];
      ConstrainFrom(space, r, Shannon(x, f1, f0), Shannon(x, c1, c0)) == Branches(space, r, f1, f0, c1, c0)
  {
    var x := space[r];
    forall a: Asg
      ensures a in ConstrainFrom(space, r, Shannon(x, f1, f0), Shannon(x, c1, c0))
         <==> a in Branches(space, r, f1, f0, c1, c0)
    {
      ConstrainAt(space, r, f1, f0, c1, c0, a);
    }
  }

  lemma SpaceDistinct(ranks: seq<nat>, space: seq<nat>)
    requires Inverse(ranks, space)
    ensures Distinct(space)
  {
    forall i, j | 0 <= i < j < |space|
      ensures space[i] != space[j]
    {
      assert ranks[space[i]] == i && ranks[space[j]] == j;
    }
  }

  /** Only the zero edge denotes the empty function. */
  lemma EmptyIsZero(s: Table, ranks: seq<nat>, e: Edge)
    requires TableOk(s, ranks) && In(s.g, e)
    ensures Sem(s.den, e) == iset{} <==> e == ZERO
  {
    CoreKeys(s, ranks);
    ConstSem(s.den);
    Canonical(s.g, ranks, s.den, e, ZERO);
  }

  /** An edge ignores the variables of all ranks above its own. */
  lemma IndepAbove(s: Table, ranks: seq<nat>, space: seq<nat>, e: Edge, r: nat)
    requires TableOk(s, ranks) && Inverse(ranks, space) && r <= |space| && r <= Rank(s.g, ranks, e)
    ensures forall i :: 0 <= i < r ==> Indep(Sem(s.den, e), space[i])
  {
    forall i | 0 <= i < r
      ensures Indep(Sem(s.den, e), space[i])
    {
      SemIndep(s.g, ranks, s.den, e, space[i]);
    }
  }

  /** The four cofactors at the top variable v of f and c. */
  datatype Split = Split(f1: Edge, f0: Edge, c1: Edge, c0: Edge)

  function SplitAt(g: Nodes, ranks: seq<nat>, f: Edge, c: Edge, rank: nat): Split {
    Split(ExpPos(g, ranks, f, rank), ExpNeg(g, ranks, f, rank), ExpPos(g, ranks, c, rank), ExpNeg(g, ranks, c, rank))
  }

  function PairRank(g: Nodes, ranks: seq<nat>, f: Edge, c: Edge): nat {
    Min(Rank(g, ranks, f), Rank(g, ranks, c))
  }

  function PairVar(g: Nodes, ranks: seq<nat>, f: Edge, c: Edge): nat {
    if Rank(g, ranks, f) <= Rank(g, ranks, c) then VarId(g, f) else VarId(g, c)
  }

  lemma PairTop(s: Table, ranks: seq<nat>, f: Edge, c: Edge)
    requires TableOk(s, ranks) && f.node in s.g
    ensures var v := PairVar(s.g, ranks, f, c); v < |ranks| && ranks[v] == PairRank(s.g, ranks, f, c)
  {
    TerminalRank(s.g, ranks, f);
    TerminalRank(s.g, ranks, c);
    if f.node in s.g { assert NodeOk(s.g, ranks, f.node); }
    if c.node in s.g { assert NodeOk(s.g, ranks, c.node); }
  }

  /** The cofactors are alive and rank below v, and the two edges are expanded over v. */
  ghost predicate Splits(s: Table, ranks: seq<nat>, f: Edge, c: Edge, v: nat, p: Split) {
    && v < |ranks|
    && Alive(s.g, s.refs, p.f1) && Alive(s.g, s.refs, p.f0) && Alive(s.g, s.refs, p.c1) && Alive(s.g, s.refs, p.c0)
    && ranks[v] < Rank(s.g, ranks, p.f1) <= TERMID && ranks[v] < Rank(s.g, ranks, p.f0) <= TERMID
    && ranks[v] < Rank(s.g, ranks, p.c1) <= TERMID && ranks[v] < Rank(s.g, ranks, p.c0) <= TERMID
    && Sem(s.den, f) == Shannon(v, Sem(s.den, p.f1), Sem(s.den, p.f0))
    && Sem(s.den, c) == Shannon(v, Sem(s.den, p.c1), Sem(s.den, p.c0))
  }

  lemma SplitsOk(s: Table, ranks: seq<nat>, space: seq<nat>, f: Edge, c: Edge, v: nat)
    requires TableOk(s, ranks) && Inverse(ranks, space) && Alive(s.g, s.refs, f) && Alive(s.g, s.refs, c)
    requires v < |ranks| && ranks[v] == PairRank(s.g, ranks, f, c)
    ensures Splits(s, ranks, f, c, v, SplitAt(s.g, ranks, f, c, ranks[v]))
  {
    var p := SplitAt(s.g, ranks, f, c, ranks[v]);
    ExpOk(s, ranks, space, f, v);
    ExpOk(s, ranks, space, c, v);
    RankBound(s.g, ranks, p.f1);
    RankBound(s.g, ranks, p.f0);
    RankBound(s.g, ranks, p.c1);
    RankBound(s.g, ranks, p.c0);
  }

  ghost function ConstrainEdges(den: Den, space: seq<nat>, f: Edge, c: Edge): Fn {
    Constrain(space, Sem(den, f), Sem(den, c))
  }

  /** Constraining two edges, in terms of their cofactors: the recursion of bdd_constrain_aux. */
  lemma ConstrainSplit(s: Table, ranks: seq<nat>, space: seq<nat>, f: Edge, c: Edge, v: nat, p: Split)
    requires TableOk(s, ranks) && Inverse(ranks, space) && In(s.g, c) && c != ZERO
    requires Splits(s, ranks, f, c, v, p) && ranks[v] == PairRank(s.g, ranks, f, c)
    ensures !(p.c0 == ZERO && p.c1 == ZERO)
    ensures ConstrainEdges(s.den, space, f, c) ==
      if p.c0 == ZERO then ConstrainEdges(s.den, space, p.f1, p.c1)
      else if p.c1 == ZERO then ConstrainEdges(s.den, space, p.f0, p.c0)
      else Shannon(v, ConstrainEdges(s.den, space, p.f1, p.c1), ConstrainEdges(s.den, space, p.f0, p.c0))
  {
    hide TableOk, Constrain, ConstrainFrom;
    var r := ranks[v];
    assert space[r] == v;
    SpaceDistinct(ranks, space);
    EmptyIsZero(s, ranks, c);
    EmptyIsZero(s, ranks, p.c1);
    EmptyIsZero(s, ranks, p.c0);
    SplitIndep(s, ranks, f, c, v, p);
    ShannonSame(v, iset{});
    IndepAbove(s, ranks, space, c, r);
    ConstrainSkip(space, r, Sem(s.den, f), Sem(s.den, c));
    ConstrainStep(space, r, Sem(s.den, p.f1), Sem(s.den, p.f0), Sem(s.den, p.c1), Sem(s.den, p.c0));
    if p.c1 != ZERO {
      IndepAbove(s, ranks, space, p.c1, r + 1);
      ConstrainSkip(space, r + 1, Sem(s.den, p.f1), Sem(s.den, p.c1));
    }
    if p.c0 != ZERO {
      IndepAbove(s, ranks, space, p.c0, r + 1);
      ConstrainSkip(space, r + 1, Sem(s.den, p.f0), Sem(s.den, p.c0));
    }
  }

  lemma SplitIndep(s: Table, ranks: seq<nat>, f: Edge, c: Edge, v: nat, p: Split)
    requires TableOk(s, ranks) && Splits(s, ranks, f, c, v, p)
    ensures Indep(Sem(s.den, p.f1), v) && Indep(Sem(s.den, p.f0), v)
    ensures Indep(Sem(s.den, p.c1), v) && Indep(Sem(s.den, p.c0), v)
    ensures In(s.g, p.c1) && In(s.g, p.c0) && In(s.g, p.f1) && In(s.g, p.f0)
  {
    SemIndep(s.g, ranks, s.den, p.f1, v);
    SemIndep(s.g, ranks, s.den, p.f0, v);
    SemIndep(s.g, ranks, s.den, p.c1, v);
    SemIndep(s.g, ranks, s.den, p.c0, v);
  }

  /** Constraining to everything, or constraining a constant, changes nothing. */
  lemma ConstrainTrivial(s: Table, ranks: seq<nat>, space: seq<nat>, f: Edge, c: Edge)
    requires TableOk(s, ranks) && Inverse(ranks, space) && (c == ONE || f.node == 0)
    ensures ConstrainEdges(s.den, space, f, c) == Sem(s.den, f)
  {
    CoreKeys(s, ranks);
    ConstSem(s.den);
    if c == ONE {
      SpaceDistinct(ranks, space);
      NotTrue();
      forall a: Asg
        ensures Proj(space, 0, True(), a) == a
      {
        ProjNearest(space, 0, True(), a, a);
      }
    }
  }

  lemma PairBound(s: Table, ranks: seq<nat>, f: Edge, c: Edge)
    requires TableOk(s, ranks)
    ensures PairRank(s.g, ranks, f, c) <= TERMID
  {
    RankBound(s.g, ranks, f);
  }

  lemma KeptPair(s: Table, t: Table, ranks: seq<nat>, f: Edge, c: Edge)
    requires TableOk(s, ranks) && TableOk(t, ranks) && Kept(s, t)
    requires Alive(s.g, s.refs, f) && Alive(s.g, s.refs, c)
    ensures Alive(t.g, t.refs, f) && Alive(t.g, t.refs, c) && In(t.g, f) && In(t.g, c)
    ensures Sem(t.den, f) == Sem(s.den, f) && Sem(t.den, c) == Sem(s.den, c)
    ensures Rank(t.g, ranks, f) == Rank(s.g, ranks, f) && Rank(t.g, ranks, c) == Rank(s.g, ranks, c)
  {
    KeptEdge(s, t, ranks, f);
    KeptEdge(s, t, ranks, c);
  }

  lemma CachedConstrain(s: Table, ranks: seq<nat>, space: seq<nat>, f: Edge, c: Edge, R: Edge)
    requires c != ZERO
    ensures CachedOk(OpConstrain, f, c, R, s, ranks, space) <==>
      && In(s.g, f) && In(s.g, c) && In(s.g, R)
      && Sem(s.den, R) == ConstrainEdges(s.den, space, f, c) && Rank(s.g, ranks, R) >= PairRank(s.g, ranks, f, c)
  {
  }

  /** bdd_constrain_aux */
  method ConstrainAux(m: Manager, f: Edge, c: Edge) returns (R: Edge)
    requires m.Valid() && Alive(m.nodes, m.refs, f) && Alive(m.nodes, m.refs, c) && c != ZERO
    modifies m
    ensures m.Valid() && m.SameOrder(old(m.ranks), old(m.space), old(m.groups)) && m.reorder == old(m.reorder)
    ensures Delivers(old(m.Tab()), m.Tab(), R, old(ConstrainEdges(m.den, m.space, f, c)))
    ensures Rank(m.nodes, m.ranks, R) >= old(PairRank(m.nodes, m.ranks, f, c))
    ensures c != ONE && f.node != 0 ==> Remembers(m, OpConstrain, f, c, R)
    decreases TERMID - PairRank(m.nodes, m.ranks, f, c), 2
  {
    hide TableOk, CacheOk, Inverse, Kept, ConstrainEdges;
    ghost var s := m.Tab();
    PairBound(s, m.ranks, f, c);
    if c == ONE || f.node == 0 {
      ConstrainTrivial(s, m.ranks, m.space, f, c);
      AddRef(m, f);
      KeptPair(s, m.Tab(), m.ranks, f, c);
      return f;
    }
    var hit;
    hit, R := Lookup(m, OpConstrain, f, c);
    ghost var s1 := m.Tab();
    KeptPair(s, s1, m.ranks, f, c);
    SameConstrain(s.den, s1.den, m.space, f, c);
    CachedConstrain(s1, m.ranks, m.space, f, c, R);
    if !hit {
      R := ConstrainMiss(m, f, c);
      KeptTrans(s, s1, m.Tab());
    }
  }

  /** After a miss: compute, and remember the result. */
  method ConstrainMiss(m: Manager, f: Edge, c: Edge) returns (R: Edge)
    requires m.Valid() && Alive(m.nodes, m.refs, f) && Alive(m.nodes, m.refs, c) && c != ZERO && f.node != 0
    modifies m
    ensures m.Valid() && m.SameOrder(old(m.ranks), old(m.space), old(m.groups)) && m.reorder == old(m.reorder)
    ensures Delivers(old(m.Tab()), m.Tab(), R, old(ConstrainEdges(m.den, m.space, f, c)))
    ensures Rank(m.nodes, m.ranks, R) >= old(PairRank(m.nodes, m.ranks, f, c)) && Remembers(m, OpConstrain, f, c, R)
    decreases TERMID - PairRank(m.nodes, m.ranks, f, c), 1
  {
    hide TableOk, CacheOk, Inverse, Kept, ConstrainEdges;
    ghost var s := m.Tab();
    R := ConstrainExpand(m, f, c);
    KeptPair(s, m.Tab(), m.ranks, f, c);
    SameConstrain(s.den, m.den, m.space, f, c);
    CachedConstrain(m.Tab(), m.ranks, m.space, f, c, R);
    Insert(m, OpConstrain, f, c, R);
  }

  lemma SameConstrain(den: Den, den': Den, space: seq<nat>, f: Edge, c: Edge)
    requires Sem(den', f) == Sem(den, f) && Sem(den', c) == Sem(den, c)
    ensures ConstrainEdges(den', space, f, c) == ConstrainEdges(den, space, f, c)
  {
  }

  /** The cases of bdd_constrain_aux after a miss: if c is 0 on one side of its top variable, the
      other side answers; otherwise both sides are needed. */
  method ConstrainExpand(m: Manager, f: Edge, c: Edge) returns (R: Edge)
    requires m.Valid() && Alive(m.nodes, m.refs, f) && Alive(m.nodes, m.refs, c) && c != ZERO && f.node != 0
    modifies m
    ensures m.Valid() && m.SameOrder(old(m.ranks), old(m.space), old(m.groups)) && m.reorder == old(m.reorder)
    ensures Delivers(old(m.Tab()), m.Tab(), R, old(ConstrainEdges(m.den, m.space, f, c)))
    ensures Rank(m.nodes, m.ranks, R) >= old(PairRank(m.nodes, m.ranks, f, c))
    decreases TERMID - PairRank(m.nodes, m.ranks, f, c), 0
  {
    hide TableOk, CacheOk, Inverse, Kept, ConstrainEdges, SplitAt;
    ghost var s := m.Tab();
    var v := PairVar(m.nodes, m.ranks, f, c);
    PairTop(s, m.ranks, f, c);
    var p := SplitAt(m.nodes, m.ranks, f, c, m.ranks[v]);
    SplitsOk(s, m.ranks, m.space, f, c, v);
    AliveIn(m.nodes, m.refs, c);
    ConstrainSplit(s, m.ranks, m.space, f, c, v, p);
    if p.c0 == ZERO {
      R := ConstrainAux(m, p.f1, p.c1);
    } else if p.c1 == ZERO {
      R := ConstrainAux(m, p.f0, p.c0);
    } else {
      var T := ConstrainAux(m, p.f1, p.c1);
      ghost var s1 := m.Tab();
      KeptPair(s, s1, m.ranks, p.f0, p.c0);
      SameConstrain(s.den, s1.den, m.space, p.f0, p.c0);
      var E := ConstrainAux(m, p.f0, p.c0);
      R := Combine(m, s, s1, v, T, E);
    }
  }

  /** A BDD pointer, which may be BDD_VOID. */
  datatype Pointer = Void | To(e: Edge)

  predicate AliveP(m: Manager, p: Pointer)
    reads m
  {
    p.To? ==> Alive(m.nodes, m.refs, p.e)
  }

  /** bdd_constrain: no function on an empty domain. */
  method BddConstrain(m: Manager, f: Pointer, c: Pointer) returns (R: Pointer)
    requires m.Valid() && AliveP(m, f) && AliveP(m, c)
    modifies m
    ensures m.Valid() && m.SameOrder(old(m.ranks), old(m.space), old(m.groups)) && m.reorder == old(m.reorder)
    ensures R.Void? <==> f.Void? || c.Void? || c.e == ZERO
    ensures R.Void? ==> m.Tab() == old(m.Tab())
    ensures R.To? ==> Delivers(old(m.Tab()), m.Tab(), R.e, old(ConstrainEdges(m.den, m.space, f.e, c.e)))
  {
    if f.Void? || c.Void? || c.e == ZERO {
      return Void;
    }
    var r := ConstrainAux(m, f.e, c.e);
    R := To(r);
  }

  /** Support of a function of the table: the variables of the order. */
  ghost predicate Within(space: seq<nat>, c: Fn) {
    forall x: nat :: x !in space ==> Indep(c, x)
  }

  /** A constrained function is the function at the nearest point of c; on c it is unchanged. */
  lemma ConstrainIsNearest(space: seq<nat>, f: Fn, c: Fn, a: Asg)
    requires Distinct(space) && Within(space, c) && c != iset{}
    ensures Proj(space, 0, c, a) in c
    ensures a in Constrain(space, f, c) <==> Proj(space, 0, c, a) in f
    ensures a in c ==> (a in Constrain(space, f, c) <==> a in f)
    ensures forall z {:trigger Dist(space, 0, a, z)} :: z in c ==>
      Dist(space, 0, a, Proj(space, 0, c, a)) <= Dist(space, 0, a, z)
  {
    forall z | z in c
      ensures Proj(space, 0, c, a) in c && (a in c ==> Proj(space, 0, c, a) == a)
      ensures Dist(space, 0, a, Proj(space, 0, c, a)) <= Dist(space, 0, a, z)
    {
      SupportIndices(space, c);
      ProjNearest(space, 0, c, a, z);
    }
    var z :| z in c;
    assert Dist(space, 0, a, Proj(space, 0, c, a)) <= Dist(space, 0, a, z);
  }

  lemma SupportIndices(space: seq<nat>, c: Fn)
    requires Within(space, c)
    ensures forall x: nat :: (forall i :: 0 <= i < |space| ==> space[i] != x) ==> Indep(c, x)
  {
    forall x: nat | forall i :: 0 <= i < |space| ==> space[i] != x
      ensures Indep(c, x)
    {
      assert x !in space;
    }
  }

  /** Constraining commutes with complement, conjunction and disjunction. */
  lemma ConstrainCommutes(space: seq<nat>, f: Fn, g: Fn, c: Fn)
    ensures Constrain(space, Not(f), c) == Not(Constrain(space, f, c))
    ensures Constrain(space, f * g, c) == Constrain(space, f, c) * Constrain(space, g, c)
    ensures Constrain(space, f + g, c) == Constrain(space, f, c) + Constrain(space, g, c)
  {
  }

  /** The values of a vector of functions at a point. */
  ghost function Values(fs: seq<Fn>, a: Asg): seq<bool> {
    seq(|fs|, i requires 0 <= i < |fs| => a in fs[i])
  }

  /** The image of a set of points under a vector of functions. */
  ghost function Image(fs: seq<Fn>, c: Fn): iset<seq<bool>> {
    iset a: Asg | a in c :: Values(fs, a)
  }

  ghost function ConstrainAll(space: seq<nat>, fs: seq<Fn>, c: Fn): seq<Fn> {
    seq(|fs|, i requires 0 <= i < |fs| => Constrain(space, fs[i], c))
  }

  /** The image of everything under the constrained vector is the image of c under the vector. */
  lemma ConstrainImage(space: seq<nat>, fs: seq<Fn>, c: Fn)
    requires Distinct(space) && Within(space, c) && c != iset{}
    ensures Image(ConstrainAll(space, fs, c), True()) == Image(fs, c)
  {
    var gs := ConstrainAll(space, fs, c);
    forall a: Asg
      ensures Values(gs, a) in Image(fs, c)
      ensures a in c ==> Values(fs, a) in Image(gs, True())
    {
      var p := Proj(space, 0, c, a);
      ConstrainIsNearest(space, c, c, a);
      assert Values(gs, a) == Values(fs, p);
      if a in c {
        ProjOnSet(space, c, a);
        assert a in True();
      }
    }
  }

  lemma ProjOnSet(space: seq<nat>, c: Fn, a: Asg)
    requires Distinct(space) && Within(space, c) && a in c
    ensures Proj(space, 0, c, a) == a
  {
    SupportIndices(space, c);
    ProjNearest(space, 0, c, a, a);
  }

  /** The functions of the table depend on variables of the order only. */
  lemma {:induction false} SemForeign(g: Nodes, ranks: seq<nat>, den: Den, e: Edge, x: nat)
    requires WF(g, ranks, den) && x >= |ranks|
    ensures Indep(Sem(den, e), x)
    decreases TERMID - Rank(g, ranks, e)
  {
    if e.node in g {
      var n := g[e.node];
      RankBound(g, ranks, n.thn);
      RankBound(g, ranks, n.els);
      assert NodeOk(g, ranks, e.node) && NodeDenotes(g, den, e.node);
      SemForeign(g, ranks, den, n.thn, x);
      SemForeign(g, ranks, den, n.els, x);
      ShannonIndepOther(n.varid, Sem(den, n.thn), Sem(den, n.els), x);
    }
    IndepNot(At(den, e.node), x);
  }

  lemma RankedInSpace(ranks: seq<nat>, space: seq<nat>, x: nat)
    requires Inverse(ranks, space) && x < |ranks|
    ensures x in space
  {
    assert space[ranks[x]] == x;
  }

  lemma SemWithin(s: Table, ranks: seq<nat>, space: seq<nat>, e: Edge)
    requires TableOk(s, ranks) && Inverse(ranks, space)
    ensures Distinct(space) && Within(space, Sem(s.den, e))
  {
    SpaceDistinct(ranks, space);
    forall x: nat | x !in space
      ensures Indep(Sem(s.den, e), x)
    {
      if x < |ranks| {
        RankedInSpace(ranks, space, x);
      } else {
        SemForeign(s.g, ranks, s.den, e, x);
      }
    }
  }

  /** What holding the references of x keeps: the nodes and their functions. */
  ghost predicate Retains(s: Table, t: Table, x: multiset<nat>) {
    && FrozenKept(s.refs, t.refs)
    && (forall n {:trigger x[n]} :: x[n] > 0 && n in s.g ==>
          n in t.g && n in s.den && n in t.den && t.den[n] == s.den[n])
  }

  lemma RetainsTrans(s: Table, t: Table, u: Table, x: multiset<nat>)
    requires Retains(s, t, x) && Retains(t, u, x)
    ensures Retains(s, u, x)
  {
  }

  lemma RetainsRefl(s: Table, ranks: seq<nat>, x: multiset<nat>)
    requires TableOk(s, ranks)
    ensures Retains(s, s, x)
  {
  }

  lemma RetainsSem(s: Table, t: Table, ranks: seq<nat>, ranks': seq<nat>, x: multiset<nat>, e: Edge)
    requires TableOk(s, ranks) && TableOk(t, ranks') && Retains(s, t, x) && x[e.node] > 0 && In(s.g, e)
    ensures Sem(t.den, e) == Sem(s.den, e)
  {
    CoreKeys(s, ranks);
    CoreKeys(t, ranks');
  }

  /** What was held and is kept alive by an operation is retained. */
  lemma KeptRetains(s: Table, t: Table, ranks: seq<nat>, x: multiset<nat>)
    requires TableOk(s, ranks) && Kept(s, t) && x <= s.ext
    ensures Retains(s, t, x)
  {
    forall n | x[n] > 0 && n in s.g
      ensures n in t.g && n in s.den && n in t.den && t.den[n] == s.den[n]
    {
      assert s.ext[n] > 0;
      HeldAlive(s, ranks, n);
    }
  }

  ghost function PointerNodes(ps: seq<Pointer>): multiset<nat> {
    if ps == [] then multiset{}
    else PointerNodes(ps[..|ps| - 1]) + One(ps[|ps| - 1])
  }

  ghost function One(p: Pointer): multiset<nat> {
    if p.To? then multiset{p.e.node} else multiset{}
  }

  /** R is f constrained to c, as pointers. */
  ghost predicate IsConstrained(s: Table, t: Table, space: seq<nat>, f: Pointer, c: Pointer, R: Pointer) {
    if f.Void? || c.Void? || c.e == ZERO then R.Void?
    else R.To? && In(t.g, R.e) && Sem(t.den, R.e) == ConstrainEdges(s.den, space, f.e, c.e)
  }

  /** One element of the vector: constrain it and free the original. */
  method ConstrainElement(m: Manager, f: Pointer, c: Pointer, ghost x: multiset<nat>) returns (R: Pointer)
    requires m.Valid() && m.ext == x + One(f) && One(c) <= x
    requires (f.To? ==> In(m.nodes, f.e)) && (c.To? ==> In(m.nodes, c.e))
    modifies m
    ensures m.Valid() && m.SameOrder(old(m.ranks), old(m.space), old(m.groups)) && m.reorder == old(m.reorder)
    ensures m.ext == x + One(R) && Retains(old(m.Tab()), m.Tab(), x)
    ensures IsConstrained(old(m.Tab()), m.Tab(), m.space, f, c, R)
  {
    hide TableOk, CacheOk, Inverse, Kept, ConstrainEdges, Retains, One;
    ghost var s := m.Tab();
    ElementAlive(s, m.ranks, f, c, x);
    R := BddConstrain(m, f, c);
    ghost var t := m.Tab();
    if R.Void? {
      RetainsRefl(s, m.ranks, x);
    } else {
      Prefix(x, One(f));
      KeptRetains(s, t, m.ranks, x);
    }
    Exchange(x, f, R);
    if f.To? {
      FreeHeld(m, f.e, x + One(R));
      RetainsFree(s, t, m.Tab(), x);
    }
  }

  lemma Prefix(x: multiset<nat>, y: multiset<nat>)
    ensures x <= x + y
  {
  }

  lemma Exchange(x: multiset<nat>, f: Pointer, R: Pointer)
    ensures R.Void? ==> x + One(f) == x + One(R) + One(f)
    ensures R.To? ==> x + One(f) + multiset{R.e.node} == x + One(R) + One(f)
    ensures f.To? ==> One(f) == multiset{f.e.node}
    ensures f.Void? ==> x + One(R) + One(f) == x + One(R)
  {
  }

  lemma ElementAlive(s: Table, ranks: seq<nat>, f: Pointer, c: Pointer, x: multiset<nat>)
    requires TableOk(s, ranks) && s.ext == x + One(f) && One(c) <= x
    ensures f.To? ==> Alive(s.g, s.refs, f.e)
    ensures c.To? ==> Alive(s.g, s.refs, c.e)
  {
    if f.To? {
      HeldAlive(s, ranks, f.e.node);
    }
    if c.To? {
      assert One(c)[c.e.node] > 0;
      HeldAlive(s, ranks, c.e.node);
    }
  }

  lemma RetainsFree(s: Table, t: Table, u: Table, x: multiset<nat>)
    requires Retains(s, t, x) && u.g == t.g && u.den == t.den && FrozenKept(t.refs, u.refs)
    ensures Retains(s, u, x)
  {
  }

  method FreeHeld(m: Manager, e: Edge, ghost x: multiset<nat>)
    requires m.Valid() && m.ext == x + multiset{e.node}
    modifies m`refs, m`ext
    ensures m.Valid() && m.ext == x && FrozenKept(old(m.refs), m.refs)
  {
    hide TableOk, CacheOk, Inverse;
    assert x + multiset{e.node} - multiset{e.node} == x;
    Free(m, e);
  }

  lemma PointerNodesLast(ps: seq<Pointer>)
    requires ps != []
    ensures PointerNodes(ps) == PointerNodes(ps[..|ps| - 1]) + One(ps[|ps| - 1])
  {
  }

  lemma {:induction false} PointerNodesAt(ps: seq<Pointer>, k: nat, R: Pointer)
    requires k < |ps|
    ensures PointerNodes(ps[k := R]) + One(ps[k]) == PointerNodes(ps) + One(R)
  {
    hide PointerNodes, One;
    var n := |ps| - 1;
    PointerNodesLast(ps);
    PointerNodesLast(ps[k := R]);
    if k < n {
      PointerNodesAt(ps[..n], k, R);
      assert ps[k := R][..n] == ps[..n][k := R];
      Shuffle(PointerNodes(ps[..n][k := R]), PointerNodes(ps[..n]), One(ps[n]), One(ps[k]), One(R));
    } else {
      assert ps[k := R][..n] == ps[..n];
      Commute(PointerNodes(ps[..n]), One(ps[n]), One(R));
    }
  }

  lemma Commute(a: multiset<nat>, x: multiset<nat>, y: multiset<nat>)
    ensures a + x + y == a + y + x
    ensures a + multiset{} == a
  {
  }

  lemma Shuffle(a: multiset<nat>, b: multiset<nat>, l: multiset<nat>, x: multiset<nat>, y: multiset<nat>)
    requires a + x == b + y
    ensures a + l + x == b + l + y
  {
    assert a + l + x == a + x + l;
  }

  /** The references of all elements but one. */
  ghost function Others(ps: seq<Pointer>, k: nat): multiset<nat>
    requires k < |ps|
  {
    PointerNodes(ps[k := Void])
  }

  lemma OthersOk(ps: seq<Pointer>, k: nat, R: Pointer)
    requires k < |ps|
    ensures PointerNodes(ps) == Others(ps, k) + One(ps[k])
    ensures PointerNodes(ps[k := R]) == Others(ps, k) + One(R)
  {
    hide PointerNodes;
    PointerNodesAt(ps, k, Void);
    PointerNodesAt(ps[k := Void], k, R);
    assert ps[k := Void][k := R] == ps[k := R];
    Commute(PointerNodes(ps), multiset{}, multiset{});
    Commute(PointerNodes(ps[k := R]), multiset{}, multiset{});
  }

  lemma {:induction false} PointerCounted(ps: seq<Pointer>, k: nat)
    requires k < |ps| && ps[k].To?
    ensures PointerNodes(ps)[ps[k].e.node] > 0
  {
    if k < |ps| - 1 {
      PointerCounted(ps[..|ps| - 1], k);
    }
  }

  ghost predicate SameFunction(s: Table, t: Table, p: Pointer) {
    p.To? ==> In(s.g, p.e) && In(t.g, p.e) && Sem(t.den, p.e) == Sem(s.den, p.e)
  }

  /** The first p elements are constrained, the others still as they were. */
  ghost predicate Progress(s: Table, t: Table, space: seq<nat>, orig: seq<Pointer>, cur: seq<Pointer>, c: Pointer, p: nat) {
    && |cur| == |orig| && p <= |orig| && SameFunction(s, t, c)
    && (forall k {:trigger cur[k]} :: 0 <= k < p ==> IsConstrained(s, t, space, orig[k], c, cur[k]))
    && (forall k {:trigger cur[k]} :: p <= k < |orig| ==> cur[k] == orig[k] && SameFunction(s, t, cur[k]))
  }

  lemma SameFunctionStep(s: Table, t: Table, u: Table, ranks: seq<nat>, x: multiset<nat>, p: Pointer)
    requires TableOk(t, ranks) && TableOk(u, ranks) && Retains(t, u, x) && (p.To? ==> x[p.e.node] > 0)
    requires SameFunction(s, t, p)
    ensures SameFunction(s, u, p)
  {
    if p.To? {
      RetainsSem(t, u, ranks, ranks, x, p.e);
    }
  }

  lemma IsConstrainedStep(s: Table, t: Table, u: Table, ranks: seq<nat>, space: seq<nat>, x: multiset<nat>,
                          f: Pointer, c: Pointer, R: Pointer)
    requires TableOk(t, ranks) && TableOk(u, ranks) && Retains(t, u, x) && (R.To? ==> x[R.e.node] > 0)
    requires IsConstrained(s, t, space, f, c, R)
    ensures IsConstrained(s, u, space, f, c, R)
  {
    if R.To? {
      RetainsSem(t, u, ranks, ranks, x, R.e);
    }
  }

  lemma ProgressStep(s: Table, t: Table, u: Table, ranks: seq<nat>, space: seq<nat>, x: multiset<nat>,
                     orig: seq<Pointer>, cur: seq<Pointer>, c: Pointer, p: nat, R: Pointer)
    requires TableOk(t, ranks) && TableOk(u, ranks) && Progress(s, t, space, orig, cur, c, p) && p < |orig|
    requires One(c) <= x && Retains(t, u, x + Others(cur, p)) && IsConstrained(t, u, space, cur[p], c, R)
    ensures Progress(s, u, space, orig, cur[p := R], c, p + 1)
  {
    hide TableOk, Retains, IsConstrained, SameFunction, Constrain;
    var y := x + Others(cur, p);
    forall k | 0 <= k < |cur| && k != p && cur[k].To?
      ensures y[cur[k].e.node] > 0
    {
      PointerCounted(cur[p := Void], k);
    }
    assert c.To? ==> One(c)[c.e.node] > 0;
    SameFunctionStep(s, t, u, ranks, y, c);
    ConstrainedFrom(s, t, u, space, cur[p], c, R);
    forall k | 0 <= k < p
      ensures IsConstrained(s, u, space, orig[k], c, cur[k])
    {
      IsConstrainedStep(s, t, u, ranks, space, y, orig[k], c, cur[k]);
    }
    forall k | p + 1 <= k < |orig|
      ensures SameFunction(s, u, cur[k])
    {
      SameFunctionStep(s, t, u, ranks, y, cur[k]);
    }
  }

  lemma ConstrainedFrom(s: Table, t: Table, u: Table, space: seq<nat>, f: Pointer, c: Pointer, R: Pointer)
    requires SameFunction(s, t, f) && SameFunction(s, t, c) && IsConstrained(t, u, space, f, c, R)
    ensures IsConstrained(s, u, space, f, c, R)
  {
  }

  lemma ProgressBegin(s: Table, ranks: seq<nat>, space: seq<nat>, x: multiset<nat>, ps: seq<Pointer>, c: Pointer)
    requires TableOk(s, ranks) && s.ext == x + PointerNodes(ps) && One(c) <= x
    ensures Progress(s, s, space, ps, ps, c, 0)
  {
    assert c.To? ==> One(c)[c.e.node] > 0;
    if c.To? {
      HeldAlive(s, ranks, c.e.node);
    }
    forall k | 0 <= k < |ps|
      ensures SameFunction(s, s, ps[k])
    {
      if ps[k].To? {
        PointerCounted(ps, k);
        HeldAlive(s, ranks, ps[k].e.node);
      }
    }
  }

  /** One turn of the loop of bdd_constrain_vec. */
  method VecStep(m: Manager, F: array<Pointer>, i: nat, j: nat, p: nat, c: Pointer, ghost x: multiset<nat>,
                 ghost s: Table, ghost orig: seq<Pointer>)
    requires m.Valid() && i + p < j <= F.Length && One(c) <= x
    requires Progress(s, m.Tab(), m.space, orig, F[i..j], c, p) && m.ext == x + PointerNodes(F[i..j])
    requires Retains(s, m.Tab(), x)
    modifies m, F
    ensures m.Valid() && m.SameOrder(old(m.ranks), old(m.space), old(m.groups)) && m.reorder == old(m.reorder)
    ensures Progress(s, m.Tab(), m.space, orig, F[i..j], c, p + 1) && m.ext == x + PointerNodes(F[i..j])
    ensures Retains(s, m.Tab(), x) && F[..i] == old(F[..i]) && F[j..] == old(F[j..])
  {
    hide TableOk, CacheOk, Inverse, Retains, One, PointerNodes, Progress, IsConstrained, Others;
    ghost var t, cur := m.Tab(), F[i..j];
    var f := F[i + p];
    ProgressFacts(s, t, m.space, orig, cur, c, p);
    OthersOk(cur, p, Void);
    Associate(x, Others(cur, p), One(f));
    PrefixTwo(One(c), x, Others(cur, p));
    var R := ConstrainElement(m, f, c, x + Others(cur, p));
    ProgressStep(s, t, m.Tab(), m.ranks, m.space, x, orig, cur, c, p, R);
    RetainsLess(t, m.Tab(), x, Others(cur, p));
    RetainsTrans(s, t, m.Tab(), x);
    OthersOk(cur, p, R);
    Associate(x, Others(cur, p), One(R));
    F[i + p] := R;
    assert F[i..j] == cur[p := R];
  }

  lemma ProgressFacts(s: Table, t: Table, space: seq<nat>, orig: seq<Pointer>, cur: seq<Pointer>, c: Pointer, p: nat)
    requires Progress(s, t, space, orig, cur, c, p) && p < |cur|
    ensures |cur| == |orig| && (cur[p].To? ==> In(t.g, cur[p].e)) && (c.To? ==> In(t.g, c.e))
  {
  }

  lemma Associate(x: multiset<nat>, y: multiset<nat>, z: multiset<nat>)
    ensures x + (y + z) == x + y + z
  {
  }

  lemma PrefixTwo(c: multiset<nat>, x: multiset<nat>, y: multiset<nat>)
    requires c <= x
    ensures c <= x + y
  {
  }

  lemma RetainsLess(s: Table, t: Table, x: multiset<nat>, y: multiset<nat>)
    requires Retains(s, t, x + y)
    ensures Retains(s, t, x)
  {
    forall n | x[n] > 0 && n in s.g
      ensures n in t.g && n in s.den && n in t.den && t.den[n] == s.den[n]
    {
      assert (x + y)[n] > 0;
    }
  }

  /** bdd_constrain_vec: elements i to j are constrained to c, all in one and the same order, and
      their old values given up. The loop counts the elements left, so j is at least i - 1. */
  method ConstrainVec(m: Manager, F: array<Pointer>, i: nat, j: int, c: Pointer, ghost x: multiset<nat>)
    requires m.Valid() && i <= j + 1 <= F.Length && One(c) <= x && m.ext == x + PointerNodes(F[i..j + 1])
    modifies m, F
    ensures m.Valid() && m.SameOrder(old(m.ranks), old(m.space), old(m.groups)) && m.reorder == old(m.reorder)
    ensures forall k {:trigger F[i..j + 1][k]} :: 0 <= k < j + 1 - i ==>
      IsConstrained(old(m.Tab()), m.Tab(), m.space, old(F[i..j + 1])[k], c, F[i..j + 1][k])
    ensures F[..i] == old(F[..i]) && F[j + 1..] == old(F[j + 1..])
    ensures m.ext == x + PointerNodes(F[i..j + 1]) && Retains(old(m.Tab()), m.Tab(), x)
  {
    hide TableOk, CacheOk, Inverse, Retains, One, PointerNodes, IsConstrained;
    ghost var s, orig := m.Tab(), F[i..j + 1];
    var save := m.reorder;
    m.reorder := false;
    ProgressBegin(s, m.ranks, m.space, x, orig, c);
    RetainsRefl(s, m.ranks, x);
    var p, size := 0, j - i + 1;
    while size > 0
      invariant 0 <= size <= j - i + 1 && p == j - i + 1 - size && m.Valid() && !m.reorder
      invariant m.SameOrder(old(m.ranks), old(m.space), old(m.groups))
      invariant Progress(s, m.Tab(), m.space, orig, F[i..j + 1], c, p) && m.ext == x + PointerNodes(F[i..j + 1])
      invariant Retains(s, m.Tab(), x) && F[..i] == old(F[..i]) && F[j + 1..] == old(F[j + 1..])
    {
      VecStep(m, F, i, j + 1, p, c, x, s, orig);
      p, size := p + 1, size - 1;
    }
    m.reorder := save;
  }

  /** The functions of a vector of edges. */
  ghost function Sems(den: Den, ps: seq<Pointer>): seq<Fn> {
    seq(|ps|, k requires 0 <= k < |ps| => if ps[k].To? then Sem(den, ps[k].e) else iset{})
  }

  /** After bdd_constrain_vec the vector's image over all inputs is the image the original vector
      had over the inputs satisfying c. */
  lemma VecImage(s: Table, t: Table, ranks: seq<nat>, space: seq<nat>, fs: seq<Pointer>, c: Pointer, rs: seq<Pointer>)
    requires TableOk(s, ranks) && Inverse(ranks, space) && c.To? && In(s.g, c.e) && c.e != ZERO
    requires |rs| == |fs| && forall k {:trigger fs[k]} :: 0 <= k < |fs| ==>
      fs[k].To? && IsConstrained(s, t, space, fs[k], c, rs[k])
    ensures Image(Sems(t.den, rs), True()) == Image(Sems(s.den, fs), Sem(s.den, c.e))
  {
    hide Constrain, TableOk;
    SemWithin(s, ranks, space, c.e);
    EmptyIsZero(s, ranks, c.e);
    assert Sems(t.den, rs) == ConstrainAll(space, Sems(s.den, fs), Sem(s.den, c.e));
    ConstrainImage(space, Sems(s.den, fs), Sem(s.den, c.e));
  }
}
