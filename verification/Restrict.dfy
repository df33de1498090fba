/** The restrict operator: simplification against a care set. */
module RestrictOps {
  import opened Functions
  import opened Graph
  import opened RefCount
  import opened Simplify
  import opened State
  import opened Tables
  import opened IteOps
  import opened ConstrainOps

  ghost function RestrictEdges(den: Den, space: seq<nat>, f: Edge, c: Edge): Fn {
    Restrict(space, Sem(den, f), Sem(den, c))
  }

  lemma SameRestrict(den: Den, den': Den, space: seq<nat>, f: Edge, c: Edge)
    requires Sem(den', f) == Sem(den, f) && Sem(den', c) == Sem(den, c)
    ensures RestrictEdges(den', space, f, c) == RestrictEdges(den, space, f, c)
  {
  }

  lemma CachedRestrict(s: Table, ranks: seq<nat>, space: seq<nat>, f: Edge, c: Edge, R: Edge)
    requires c != ZERO
    ensures CachedOk(OpRestrict, f, c, R, s, ranks, space) <==>
      && In(s.g, f) && In(s.g, c) && In(s.g, R)
      && Sem(s.den, R) == RestrictEdges(s.den, space, f, c) && Rank(s.g, ranks, R) >= Rank(s.g, ranks, f)
  {
  }

  /** What restrict delivers. */
  ghost predicate Restricted(s: Table, t: Table, ranks: seq<nat>, space: seq<nat>, f: Edge, c: Edge, R: Edge) {
    Delivers(s, t, R, RestrictEdges(s.den, space, f, c)) && Rank(t.g, ranks, R) >= Rank(s.g, ranks, f)
  }

  /** Restricting to everything, or restricting a constant, changes nothing. */
  lemma RestrictTrivial(s: Table, ranks: seq<nat>, space: seq<nat>, f: Edge, c: Edge)
    requires TableOk(s, ranks) && (c == ONE || f.node == 0)
    ensures RestrictEdges(s.den, space, f, c) == Sem(s.den, f)
  {
    CoreKeys(s, ranks);
    ConstSem(s.den);
    if c == ONE {
      RestrictTrue(space, 0, Sem(s.den, f), Sem(s.den, c));
    } else {
      RestrictConst(space, 0, Sem(s.den, f), Sem(s.den, c));
    }
  }

  /** bdd_restrict_aux */
  method RestrictAux(m: Manager, f: Edge, c: Edge) returns (R: Edge)
    requires m.Valid() && Alive(m.nodes, m.refs, f) && Alive(m.nodes, m.refs, c) && c != ZERO
    modifies m
    ensures m.Valid() && m.SameOrder(old(m.ranks), old(m.space), old(m.groups)) && m.reorder == old(m.reorder)
    ensures Restricted(old(m.Tab()), m.Tab(), m.ranks, m.space, f, c, R)
    ensures c != ONE && f.node != 0 ==> Remembers(m, OpRestrict, f, c, R)
    decreases TERMID - PairRank(m.nodes, m.ranks, f, c), 2
  {
    hide TableOk, CacheOk, Inverse, Kept, RestrictEdges;
    ghost var s := m.Tab();
    PairBound(s, m.ranks, f, c);
    if c == ONE || f.node == 0 {
      RestrictTrivial(s, m.ranks, m.space, f, c);
      AddRef(m, f);
      KeptPair(s, m.Tab(), m.ranks, f, c);
      return f;
    }
    var hit;
    hit, R := Lookup(m, OpRestrict, f, c);
    ghost var s1 := m.Tab();
    KeptPair(s, s1, m.ranks, f, c);
    SameRestrict(s.den, s1.den, m.space, f, c);
    CachedRestrict(s1, m.ranks, m.space, f, c, R);
    if !hit {
      R := RestrictMiss(m, f, c);
      KeptTrans(s, s1, m.Tab());
    }
  }

  /** After a miss: compute, and remember the result. */
  method RestrictMiss(m: Manager, f: Edge, c: Edge) returns (R: Edge)
    requires m.Valid() && Alive(m.nodes, m.refs, f) && Alive(m.nodes, m.refs, c) && c != ZERO
    requires f.node != 0 && c != ONE
    modifies m
    ensures m.Valid() && m.SameOrder(old(m.ranks), old(m.space), old(m.groups)) && m.reorder == old(m.reorder)
    ensures Restricted(old(m.Tab()), m.Tab(), m.ranks, m.space, f, c, R) && Remembers(m, OpRestrict, f, c, R)
    decreases TERMID - PairRank(m.nodes, m.ranks, f, c), 1
  {
    hide TableOk, CacheOk, Inverse, Kept, RestrictEdges;
    ghost var s := m.Tab();
    R := RestrictExpand(m, f, c);
    KeptPair(s, m.Tab(), m.ranks, f, c);
    SameRestrict(s.den, m.den, m.space, f, c);
    CachedRestrict(m.Tab(), m.ranks, m.space, f, c, R);
    Insert(m, OpRestrict, f, c, R);
  }

  /** The cases of bdd_restrict_aux after a miss. A variable of c above f's is quantified away. */
  method RestrictExpand(m: Manager, f: Edge, c: Edge) returns (R: Edge)
    requires m.Valid() && Alive(m.nodes, m.refs, f) && Alive(m.nodes, m.refs, c) && c != ZERO
    requires f.node != 0 && c != ONE
    modifies m
    ensures m.Valid() && m.SameOrder(old(m.ranks), old(m.space), old(m.groups)) && m.reorder == old(m.reorder)
    ensures Restricted(old(m.Tab()), m.Tab(), m.ranks, m.space, f, c, R)
    decreases TERMID - PairRank(m.nodes, m.ranks, f, c), 0
  {
    hide TableOk, CacheOk, Inverse, Kept, RestrictEdges, SplitAt;
    ghost var s := m.Tab();
    var v := PairVar(m.nodes, m.ranks, f, c);
    PairTop(s, m.ranks, f, c);
    var p := SplitAt(m.nodes, m.ranks, f, c, m.ranks[v]);
    SplitsOk(s, m.ranks, m.space, f, c, v);
    AliveIn(m.nodes, m.refs, c);
    RestrictSplit(s, m.ranks, m.space, f, c, v, p);
    if Rank(m.nodes, m.ranks, f) > Rank(m.nodes, m.ranks, c) {
      R := RestrictQuantified(m, f, c, v, p);
    } else if p.c0 == ZERO {
      R := RestrictAux(m, p.f1, p.c1);
    } else if p.c1 == ZERO {
      R := RestrictAux(m, p.f0, p.c0);
    } else {
      R := RestrictBoth(m, f, c, v, p);
    }
  }

  /** The recursion of bdd_restrict_aux, on functions. */
  ghost function RestrictBranches(den: Den, space: seq<nat>, fAbove: bool, f: Edge, v: nat, p: Split): Fn {
    if fAbove then Restrict(space, Sem(den, f), Sem(den, p.c1) + Sem(den, p.c0))
    else if p.c0 == ZERO then RestrictEdges(den, space, p.f1, p.c1)
    else if p.c1 == ZERO then RestrictEdges(den, space, p.f0, p.c0)
    else Shannon(v, RestrictEdges(den, space, p.f1, p.c1), RestrictEdges(den, space, p.f0, p.c0))
  }

  lemma SkipAbove(s: Table, ranks: seq<nat>, space: seq<nat>, f: Edge, c: Edge, r: nat)
    requires TableOk(s, ranks) && Inverse(ranks, space) && r <= |space|
    requires r <= Rank(s.g, ranks, f) && r <= Rank(s.g, ranks, c)
    ensures RestrictEdges(s.den, space, f, c) == RestrictFrom(space, r, Sem(s.den, f), Sem(s.den, c))
  {
    IndepAbove(s, ranks, space, f, r);
    IndepAbove(s, ranks, space, c, r);
    hide RestrictFrom, Indep;
    RestrictSkip(space, 0, r, Sem(s.den, f), Sem(s.den, c));
  }

  /** f and the union of two functions, all from rank r on. */
  lemma SkipUnion(s: Table, ranks: seq<nat>, space: seq<nat>, f: Edge, c1: Edge, c0: Edge, r: nat)
    requires TableOk(s, ranks) && Inverse(ranks, space) && r <= |space|
    requires r <= Rank(s.g, ranks, f) && r <= Rank(s.g, ranks, c1) && r <= Rank(s.g, ranks, c0)
    ensures Restrict(space, Sem(s.den, f), Sem(s.den, c1) + Sem(s.den, c0))
         == RestrictFrom(space, r, Sem(s.den, f), Sem(s.den, c1) + Sem(s.den, c0))
  {
    IndepAbove(s, ranks, space, f, r);
    IndepAbove(s, ranks, space, c1, r);
    IndepAbove(s, ranks, space, c0, r);
    forall i {:trigger space[i]} | 0 <= i < r
      ensures Indep(Sem(s.den, c1) + Sem(s.den, c0), space[i])
    {
      IndepUnion(Sem(s.den, c1), Sem(s.den, c0), space[i]);
    }
    hide RestrictFrom, Indep;
    RestrictSkip(space, 0, r, Sem(s.den, f), Sem(s.den, c1) + Sem(s.den, c0));
  }

  lemma IndepUnion(a: Fn, b: Fn, x: nat)
    requires Indep(a, x) && Indep(b, x)
    ensures Indep(a + b, x)
  {
  }

  /** Restricting two edges, in terms of their cofactors. */
  lemma RestrictSplit(s: Table, ranks: seq<nat>, space: seq<nat>, f: Edge, c: Edge, v: nat, p: Split)
    requires TableOk(s, ranks) && Inverse(ranks, space) && In(s.g, c) && In(s.g, f) && c != ZERO && v == PairVar(s.g, ranks, f, c)
    requires v < |ranks| && Splits(s, ranks, f, c, v, p) && ranks[v] == PairRank(s.g, ranks, f, c)
    ensures !(p.c0 == ZERO && p.c1 == ZERO)
    ensures RestrictEdges(s.den, space, f, c)
         == RestrictBranches(s.den, space, Rank(s.g, ranks, f) > Rank(s.g, ranks, c), f, v, p)
  {
    hide TableOk, RestrictFrom, Restrict, Splits;
    SplitRanks(s, ranks, space, f, c, v, p);
    var r := ranks[v];
    EmptyIsZero(s, ranks, c);
    SplitIndep(s, ranks, f, c, v, p);
    EmptyIsZero(s, ranks, p.c1);
    EmptyIsZero(s, ranks, p.c0);
    ShannonSame(v, iset{});
    SkipAbove(s, ranks, space, f, c, r);
    RestrictStep(space, r, Sem(s.den, p.f1), Sem(s.den, p.f0), Sem(s.den, p.c1), Sem(s.den, p.c0));
    TopIndep(s, ranks, f, c, v);
    hide Indep, Shannon;
    if Rank(s.g, ranks, f) > Rank(s.g, ranks, c) {
      SkipUnion(s, ranks, space, f, p.c1, p.c0, r + 1);
    } else {
      SkipAbove(s, ranks, space, p.f1, p.c1, r + 1);
      SkipAbove(s, ranks, space, p.f0, p.c0, r + 1);
    }
  }

  lemma SplitRanks(s: Table, ranks: seq<nat>, space: seq<nat>, f: Edge, c: Edge, v: nat, p: Split)
    requires TableOk(s, ranks) && Inverse(ranks, space) && Splits(s, ranks, f, c, v, p)
    ensures v < |ranks| && ranks[v] < |space| && space[ranks[v]] == v
    ensures ranks[v] < Rank(s.g, ranks, p.f1) && ranks[v] < Rank(s.g, ranks, p.f0)
    ensures ranks[v] < Rank(s.g, ranks, p.c1) && ranks[v] < Rank(s.g, ranks, p.c0)
    ensures Sem(s.den, f) == Shannon(v, Sem(s.den, p.f1), Sem(s.den, p.f0))
    ensures Sem(s.den, c) == Shannon(v, Sem(s.den, p.c1), Sem(s.den, p.c0))
  {
  }

  /** f ignores the top variable exactly if it ranks below it. */
  lemma TopIndep(s: Table, ranks: seq<nat>, f: Edge, c: Edge, v: nat)
    requires TableOk(s, ranks) && In(s.g, f) && v == PairVar(s.g, ranks, f, c) && v < |ranks|
    requires ranks[v] == PairRank(s.g, ranks, f, c)
    ensures Indep(Sem(s.den, f), v) <==> Rank(s.g, ranks, f) > Rank(s.g, ranks, c)
  {
    if Rank(s.g, ranks, f) > Rank(s.g, ranks, c) {
      SemIndep(s.g, ranks, s.den, f, v);
    } else {
      BelowTerminal(s, ranks, f, v);
      TopVariableMatters(s.g, ranks, s.den, f);
    }
  }

  lemma BelowTerminal(s: Table, ranks: seq<nat>, f: Edge, v: nat)
    requires TableOk(s, ranks) && In(s.g, f) && v < |ranks| && ranks[v] == Rank(s.g, ranks, f)
    ensures f.node in s.g
  {
    assert OrderOk(ranks);
  }

  method RestrictBoth(m: Manager, f: Edge, c: Edge, v: nat, p: Split) returns (R: Edge)
    requires m.Valid() && f.node in m.nodes && v == PairVar(m.nodes, m.ranks, f, c)
    requires Splits(m.Tab(), m.ranks, f, c, v, p) && m.ranks[v] == PairRank(m.nodes, m.ranks, f, c)
    requires Rank(m.nodes, m.ranks, f) <= Rank(m.nodes, m.ranks, c) && p.c1 != ZERO && p.c0 != ZERO
    modifies m
    ensures m.Valid() && m.SameOrder(old(m.ranks), old(m.space), old(m.groups)) && m.reorder == old(m.reorder)
    ensures Delivers(old(m.Tab()), m.Tab(), R,
                     Shannon(v, old(RestrictEdges(m.den, m.space, p.f1, p.c1)), old(RestrictEdges(m.den, m.space, p.f0, p.c0))))
    ensures Rank(m.nodes, m.ranks, R) >= old(Rank(m.nodes, m.ranks, f))
    decreases TERMID - m.ranks[v] - 1, 3
  {
    hide TableOk, CacheOk, Inverse, Kept, RestrictEdges;
    ghost var s := m.Tab();
    SplitIndep(s, m.ranks, f, c, v, p);
    var T := RestrictAux(m, p.f1, p.c1);
    ghost var s1 := m.Tab();
    KeptPair(s, s1, m.ranks, p.f0, p.c0);
    SameRestrict(s.den, s1.den, m.space, p.f0, p.c0);
    var E := RestrictAux(m, p.f0, p.c0);
    R := Combine(m, s, s1, v, T, E);
  }

  lemma QuantifiedOk(s: Table, ranks: seq<nat>, c: Edge, v: nat, f: Edge, p: Split)
    requires TableOk(s, ranks) && Splits(s, ranks, f, c, v, p) && !(p.c0 == ZERO && p.c1 == ZERO)
    requires In(s.g, p.c1) && In(s.g, p.c0)
    ensures AliveT(s, Triple(p.c1, ONE, p.c0))
    ensures Meaning(s.den, Triple(p.c1, ONE, p.c0)) == Sem(s.den, p.c1) + Sem(s.den, p.c0) != iset{}
    ensures ranks[v] < TopRank(s.g, ranks, Triple(p.c1, ONE, p.c0)) <= TERMID
  {
    CoreKeys(s, ranks);
    ConstSem(s.den);
    EmptyIsZero(s, ranks, p.c1);
    EmptyIsZero(s, ranks, p.c0);
    TopBound2(s, ranks, Triple(p.c1, ONE, p.c0));
    NotBothEmpty(Sem(s.den, p.c1), Sem(s.den, p.c0));
  }

  lemma NotBothEmpty(a: Fn, b: Fn)
    requires a != iset{} || b != iset{}
    ensures Ite(a, True(), b) == a + b != iset{}
  {
    if x :| x in a {
      assert x in a + b;
    } else {
      var y :| y in b;
      assert y in a + b;
    }
  }

  /** c's top variable is above f's: f is restricted to c with that variable quantified away. */
  method RestrictQuantified(m: Manager, f: Edge, c: Edge, v: nat, p: Split) returns (R: Edge)
    requires m.Valid() && Alive(m.nodes, m.refs, f) && Splits(m.Tab(), m.ranks, f, c, v, p)
    requires !(p.c0 == ZERO && p.c1 == ZERO) && m.ranks[v] < Rank(m.nodes, m.ranks, f)
    modifies m
    ensures m.Valid() && m.SameOrder(old(m.ranks), old(m.space), old(m.groups)) && m.reorder == old(m.reorder)
    ensures Delivers(old(m.Tab()), m.Tab(), R, Restrict(m.space, old(Sem(m.den, f)), old(Sem(m.den, p.c1)) + old(Sem(m.den, p.c0))))
    ensures Rank(m.nodes, m.ranks, R) >= old(Rank(m.nodes, m.ranks, f))
    decreases TERMID - m.ranks[v] - 1, 4
  {
    hide TableOk, CacheOk, Inverse, Kept, Restrict, Meaning, TopRank;
    ghost var s := m.Tab();
    var t := Triple(p.c1, ONE, p.c0);
    AliveIn(m.nodes, m.refs, p.c1);
    AliveIn(m.nodes, m.refs, p.c0);
    QuantifiedOk(s, m.ranks, c, v, f, p);
    var T := IteAux(m, t);
    ghost var s1 := m.Tab();
    KeptEdge(s, s1, m.ranks, f);
    HeldAlive(s1, m.ranks, T.node);
    EmptyIsZero(s1, m.ranks, T);
    PairBound(s1, m.ranks, f, T);
    R := RestrictAndFree(m, f, T, s);
  }

  method RestrictAndFree(m: Manager, f: Edge, T: Edge, ghost s: Table) returns (R: Edge)
    requires m.Valid() && Alive(m.nodes, m.refs, f) && Alive(m.nodes, m.refs, T) && T != ZERO
    requires Kept(s, m.Tab()) && m.ext == s.ext + multiset{T.node} && TableOk(s, m.ranks)
    modifies m
    ensures m.Valid() && m.SameOrder(old(m.ranks), old(m.space), old(m.groups)) && m.reorder == old(m.reorder)
    ensures Delivers(s, m.Tab(), R, old(RestrictEdges(m.den, m.space, f, T)))
    ensures Rank(m.nodes, m.ranks, R) >= old(Rank(m.nodes, m.ranks, f))
    decreases TERMID - PairRank(m.nodes, m.ranks, f, T), 3
  {
    hide TableOk, CacheOk, Inverse, Kept, RestrictEdges;
    ghost var s1 := m.Tab();
    R := RestrictAux(m, f, T);
    ghost var s2 := m.Tab();
    KeptTrans(s, s1, s2);
    FreeOne(m, T, s.ext, multiset{R.node});
    KeptAfterFree(s, s2, m.Tab(), m.ranks);
  }

  method FreeOne(m: Manager, T: Edge, ghost ext: multiset<nat>, ghost more: multiset<nat>)
    requires m.Core() && m.ext == ext + multiset{T.node} + more
    modifies m`refs, m`ext
    ensures m.Core() && m.ext == ext + more && FrozenKept(old(m.refs), m.refs)
    ensures ext <= m.ext
  {
    hide TableOk, Inverse;
    DropOne(ext, T.node, more);
    Free(m, T);
  }

  lemma DropOne(ext: multiset<nat>, t: nat, more: multiset<nat>)
    ensures var x := ext + multiset{t} + more; x[t] > 0 && x - multiset{t} == ext + more
    ensures ext <= ext + more
  {
  }

  /** bdd_restrict */
  method BddRestrict(m: Manager, f: Pointer, c: Pointer) returns (R: Pointer)
    requires m.Valid() && AliveP(m, f) && AliveP(m, c)
    modifies m
    ensures m.Valid() && m.SameOrder(old(m.ranks), old(m.space), old(m.groups)) && m.reorder == old(m.reorder)
    ensures R.Void? <==> f.Void? || c.Void? || c.e == ZERO
    ensures R.Void? ==> m.Tab() == old(m.Tab())
    ensures R.To? ==> Restricted(old(m.Tab()), m.Tab(), m.ranks, m.space, f.e, c.e, R.e)
  {
    if f.Void? || c.Void? || c.e == ZERO {
      return Void;
    }
    var r := RestrictAux(m, f.e, c.e);
    R := To(r);
  }
}
