/** Parallel substitution: one pass over the graph along a list of substitutions sorted by rank,
    with one memo slot per node. */
module Substitute {
  import opened Sets
  import opened Functions
  import opened Graph
  import opened RefCount
  import opened State
  import opened Tables
  import opened IteOps
  import opened ConstrainOps
  import opened Compose
  import opened Slots
  import opened FreeSlots

  /** The variable of rank `rank` is to be replaced; rank TERMID marks the end. */
  datatype Rec = Rec(rank: nat, sub: Edge)

  predicate Sorted(rs: seq<Rec>) {
    forall i, j :: 0 <= i < j < |rs| ==> rs[i].rank < rs[j].rank
  }

  function RankSet(rs: seq<Rec>): set<nat> {
    set i {:trigger rs[i]} | 0 <= i < |rs| :: rs[i].rank
  }

  /** Every record is alive and stands for an entry of sub. */
  ghost predicate RecOk(s: Table, space: seq<nat>, sub: Substitution, r: Rec) {
    && r.rank < |space| && space[r.rank] in sub
    && Alive(s.g, s.refs, r.sub) && Sem(s.den, r.sub) == sub[space[r.rank]]
  }

  ghost predicate RecsOk(s: Table, space: seq<nat>, sub: Substitution, rs: seq<Rec>) {
    forall i {:trigger rs[i]} :: 0 <= i < |rs| ==> RecOk(s, space, sub, rs[i])
  }

  /** The list of records, with its sentinel, says exactly sub. */
  ghost predicate Listing(s: Table, space: seq<nat>, sub: Substitution, rs: seq<Rec>) {
    && rs != [] && rs[|rs| - 1].rank == TERMID && |space| <= TERMID
    && Sorted(rs) && RecsOk(s, space, sub, rs[..|rs| - 1])
    && (forall r {:trigger space[r]} :: 0 <= r < |space| && space[r] in sub ==> r in RankSet(rs))
  }

  /** The records before i are for ranks above r. */
  ghost predicate Behind(rs: seq<Rec>, i: nat, r: nat) {
    i < |rs| && forall k {:trigger rs[k]} :: 0 <= k < i ==> rs[k].rank < r
  }

  lemma ListingAt(s: Table, space: seq<nat>, sub: Substitution, rs: seq<Rec>, i: nat)
    requires Listing(s, space, sub, rs) && i < |rs|
    ensures rs[i].rank == TERMID <==> i == |rs| - 1
    ensures rs[i].rank <= TERMID
    ensures rs[i].rank < TERMID ==> RecOk(s, space, sub, rs[i])
  {
    if i < |rs| - 1 {
      assert rs[..|rs| - 1][i] == rs[i];
    }
  }

  lemma ListingKept(s: Table, t: Table, ranks: seq<nat>, space: seq<nat>, sub: Substitution, rs: seq<Rec>)
    requires TableOk(s, ranks) && TableOk(t, ranks) && Kept(s, t) && Listing(s, space, sub, rs)
    ensures Listing(t, space, sub, rs)
  {
    hide TableOk, Kept;
    var front := rs[..|rs| - 1];
    forall i | 0 <= i < |front|
      ensures RecOk(t, space, sub, front[i])
    {
      KeptEdge(s, t, ranks, front[i].sub);
    }
  }

  /** Skip the variables that are definitely not in the support. */
  method Skip(rs: seq<Rec>, i: nat, topG: nat) returns (j: nat)
    requires Behind(rs, i, topG) && topG <= TERMID && rs[|rs| - 1].rank == TERMID
    ensures i <= j && Behind(rs, j, topG) && topG <= rs[j].rank
  {
    j := i;
    while rs[j].rank < topG
      invariant i <= j && Behind(rs, j, topG)
      decreases |rs| - j
    {
      j := j + 1;
    }
  }

  /** Whether the next record is for the rank tells whether the variable on it is replaced. */
  lemma NextIsTop(s: Table, space: seq<nat>, sub: Substitution, rs: seq<Rec>, j: nat, r: nat)
    requires Listing(s, space, sub, rs) && Behind(rs, j, r) && r <= rs[j].rank && r < |space|
    ensures space[r] in sub <==> rs[j].rank == r
  {
    ListingAt(s, space, sub, rs, j);
    if space[r] in sub {
      var k :| 0 <= k < |rs| && rs[k].rank == r;
      assert k >= j;
    }
  }

  /** At the sentinel no variable at or below rank r is replaced. */
  lemma NothingBelow(s: Table, ranks: seq<nat>, space: seq<nat>, sub: Substitution, rs: seq<Rec>, j: nat, g: Edge)
    requires TableOk(s, ranks) && Inverse(ranks, space) && In(s.g, g) && Listing(s, space, sub, rs)
    requires Behind(rs, j, Rank(s.g, ranks, g)) && rs[j].rank == TERMID
    requires forall y: nat :: y in sub ==> y < |ranks|
    ensures Subst(At(s.den, g.node), sub) == At(s.den, g.node)
  {
    var F := At(s.den, g.node);
    CoreKeys(s, ranks);
    ListingAt(s, space, sub, rs, j);
    forall y: nat | y in sub
      ensures Indep(F, y)
    {
      assert space[ranks[y]] == y;
      var k :| 0 <= k < |rs| && rs[k].rank == ranks[y];
      if g.node != 0 {
        ListingAt(s, space, sub, rs, k);
        SemIndep(s.g, ranks, s.den, Edge(g.node, false), y);
      }
    }
    SubstNone(F, sub);
  }

  /** subst_interpret_mod_bits without the inverted inputs. */
  function Slot(a: Aux, g: Edge): Edge
    requires g.node in a.aux1
  {
    NegIf(a.aux1[g.node], g.neg)
  }

  lemma SlotOk(s: Table, ranks: seq<nat>, base: multiset<nat>, sub: Substitution, a: Aux, g: Edge)
    requires TableOk(s, ranks) && Memo(s, base, Substituting(sub), a) && g.node in a.aux1
    ensures Alive(s.g, s.refs, Slot(a, g)) && Sem(s.den, Slot(a, g)) == Subst(Sem(s.den, g), sub)
    ensures Alive(s.g, s.refs, g)
  {
    hide Subst, TableOk;
    MemoSlotHeld(s, base, Substituting(sub), a, g.node);
    HeldAlive(s, ranks, a.aux1[g.node].node);
    SubstNot(At(s.den, g.node), sub);
    SemCompl(s.den, a.aux1[g.node]);
  }

  /** The recursion of bdd_subst_par_aux, on functions. */
  lemma SubstStep(s: Table, ranks: seq<nat>, n: nat, sub: Substitution)
    requires TableOk(s, ranks) && n in s.g
    ensures var nd := s.g[n];
      Subst(At(s.den, n), sub) == Ite(if nd.varid in sub then sub[nd.varid] else Shannon(nd.varid, True(), iset{}),
                                      Subst(Sem(s.den, nd.thn), sub), Subst(Sem(s.den, nd.els), sub))
  {
    var nd := s.g[n];
    assert NodeDenotes(s.g, s.den, n);
    SubstBranch(nd.varid, Sem(s.den, nd.thn), Sem(s.den, nd.els), sub);
  }

  /** A node enters the memo with its result. */
  method Finish(m: Manager, sc: Scratch, g: Edge, R: Edge, ghost base: multiset<nat>, ghost sub: Substitution)
    requires m.Valid() && Memo(m.Tab(), base + multiset{R.node}, Substituting(sub), sc.Val())
    requires g.node !in sc.aux1 && g.node in sc.mark && Alive(m.nodes, m.refs, g)
    requires In(m.nodes, R) && Sem(m.den, R) == Subst(At(m.den, g.node), sub)
    modifies sc`aux1
    ensures Memo(m.Tab(), base, Substituting(sub), sc.Val())
    ensures sc.aux1.Keys == old(sc.aux1.Keys) + {g.node}
  {
    hide Memo, Subst, TableOk, CacheOk;
    MemoAddOne(m.Tab(), base, sub, sc.Val(), g.node, R);
    sc.aux1 := sc.aux1[g.node := R];
  }

  /** At the sentinel the node stands for itself. */
  method Keep(m: Manager, sc: Scratch, g: Edge, ghost base: multiset<nat>, ghost sub: Substitution)
    requires m.Valid() && Memo(m.Tab(), base, Substituting(sub), sc.Val()) && Alive(m.nodes, m.refs, g)
    requires g.node !in sc.aux1 && g.node in sc.mark
    requires Subst(At(m.den, g.node), sub) == At(m.den, g.node)
    modifies m, sc`aux1
    ensures m.Valid() && m.SameOrder(old(m.ranks), old(m.space), old(m.groups)) && m.reorder == old(m.reorder)
    ensures Kept(old(m.Tab()), m.Tab()) && Memo(m.Tab(), base, Substituting(sub), sc.Val())
    ensures sc.aux1.Keys == old(sc.aux1.Keys) + {g.node}
  {
    hide Memo, Subst, TableOk, CacheOk, Kept, Inverse;
    ghost var s := m.Tab();
    var r := Regular(g);
    AliveCompl(s, g);
    AddRef(m, r);
    ghost var s1 := m.Tab();
    KeptEdge(s, s1, m.ranks, g);
    KeptEdge(s, s1, m.ranks, r);
    MemoBase(s, s1, base, Substituting(sub), sc.Val(), multiset{r.node});
    MemoKept(s, s1, m.ranks, base, base + multiset{r.node}, Substituting(sub), sc.Val());
    AliveIn(m.nodes, m.refs, r);
    Finish(m, sc, g, r, base, sub);
  }

  lemma DropFirst(x: multiset<nat>, t: nat, e: nat, v: nat, r: nat)
    ensures var y := x + multiset{t} + multiset{e} + multiset{v} + multiset{r};
      y[v] > 0 && y - multiset{v} == x + multiset{t} + multiset{e} + multiset{r}
  {
  }

  /** if-v-then-T-else-E, after which all three are given up. */
  method IteThree(m: Manager, v: Edge, T: Edge, E: Edge, ghost s: Table) returns (R: Edge)
    requires m.Valid() && AliveT(m.Tab(), Triple(v, T, E)) && TableOk(s, m.ranks) && Kept(s, m.Tab())
    requires m.ext == s.ext + multiset{T.node} + multiset{E.node} + multiset{v.node}
    modifies m
    ensures m.Valid() && m.SameOrder(old(m.ranks), old(m.space), old(m.groups)) && m.reorder == old(m.reorder)
    ensures Delivers(s, m.Tab(), R, old(Meaning(m.den, Triple(v, T, E))))
  {
    hide TableOk, CacheOk, Inverse, Kept, Meaning, Tables.Nodes;
    ghost var s1 := m.Tab();
    R := IteAux(m, Triple(v, T, E));
    ghost var s2 := m.Tab();
    KeptTrans(s, s1, s2);
    DropFirst(s.ext, T.node, E.node, v.node, R.node);
    FreeThree(m, v, T, E, s.ext, multiset{R.node});
    Prefix(s.ext, multiset{R.node});
    KeptAfterFree(s, s2, m.Tab(), m.ranks);
  }

  method FreeThree(m: Manager, v: Edge, T: Edge, E: Edge, ghost ext: multiset<nat>, ghost more: multiset<nat>)
    requires m.Core() && m.ext[v.node] > 0
    requires m.ext - multiset{v.node} == ext + multiset{T.node} + multiset{E.node} + more
    modifies m`refs, m`ext
    ensures m.Core() && m.ext == ext + more && FrozenKept(old(m.refs), m.refs)
  {
    hide TableOk, Inverse, Tables.Nodes;
    ghost var refs := m.refs;
    Free(m, v);
    ghost var refs1 := m.refs;
    FreeTwo(m, T, E, ext, more);
    FrozenTrans(refs, refs1, m.refs);
  }

  /** What the branch is taken on: the substituted function, or the literal itself. */
  method Selector(m: Manager, r: Rec, v: nat, ghost sub: Substitution) returns (e: Edge)
    requires m.Valid() && v < |m.ranks| && (v in sub <==> r.rank == m.ranks[v])
    requires r.rank < TERMID ==> RecOk(m.Tab(), m.space, sub, r)
    modifies m
    ensures m.Valid() && m.SameOrder(old(m.ranks), old(m.space), old(m.groups)) && m.reorder == old(m.reorder)
    ensures Delivers(old(m.Tab()), m.Tab(), e, if v in sub then sub[v] else Shannon(v, True(), iset{}))
  {
    hide TableOk, CacheOk, Kept;
    ghost var s := m.Tab();
    OrderOfTable(s, m.ranks);
    if r.rank == m.ranks[v] {
      assert m.space[r.rank] == v;
      AddRef(m, r.sub);
      KeptEdge(s, m.Tab(), m.ranks, r.sub);
      AliveIn(m.nodes, m.refs, r.sub);
      e := r.sub;
    } else {
      e := CreateVar(m, v);
    }
  }

  /** The results R1 and R2 of both children, each held once more. */
  method HoldTwo(m: Manager, R1: Edge, R2: Edge)
    requires m.Valid() && Alive(m.nodes, m.refs, R1) && Alive(m.nodes, m.refs, R2)
    modifies m
    ensures m.Valid() && m.SameOrder(old(m.ranks), old(m.space), old(m.groups)) && m.reorder == old(m.reorder)
    ensures Kept(old(m.Tab()), m.Tab()) && m.ext == old(m.ext) + multiset{R1.node} + multiset{R2.node}
    ensures Alive(m.nodes, m.refs, R1) && Alive(m.nodes, m.refs, R2)
    ensures Sem(m.den, R1) == old(Sem(m.den, R1)) && Sem(m.den, R2) == old(Sem(m.den, R2))
  {
    hide TableOk, CacheOk, Inverse, Kept, Sem, Tables.Nodes;
    ghost var s := m.Tab();
    AddRef(m, R1);
    ghost var s1 := m.Tab();
    KeptEdge(s, s1, m.ranks, R1);
    KeptEdge(s, s1, m.ranks, R2);
    AddRef(m, R2);
    ghost var s2 := m.Tab();
    KeptTrans(s, s1, s2);
    KeptEdge(s, s2, m.ranks, R1);
    KeptEdge(s, s2, m.ranks, R2);
  }

  /** What the branch is taken on, and its arms: the results R1 and R2 of the children. */
  method Arms(m: Manager, R1: Edge, R2: Edge, r: Rec, v: nat, ghost sub: Substitution) returns (e: Edge)
    requires m.Valid() && Alive(m.nodes, m.refs, R1) && Alive(m.nodes, m.refs, R2)
    requires v < |m.ranks| && (v in sub <==> r.rank == m.ranks[v])
    requires r.rank < TERMID ==> RecOk(m.Tab(), m.space, sub, r)
    modifies m
    ensures m.Valid() && m.SameOrder(old(m.ranks), old(m.space), old(m.groups)) && m.reorder == old(m.reorder)
    ensures Kept(old(m.Tab()), m.Tab()) && AliveT(m.Tab(), Triple(e, R1, R2))
    ensures m.ext == old(m.ext) + multiset{R1.node} + multiset{R2.node} + multiset{e.node}
    ensures Sem(m.den, e) == if v in sub then sub[v] else Shannon(v, True(), iset{})
    ensures Sem(m.den, R1) == old(Sem(m.den, R1)) && Sem(m.den, R2) == old(Sem(m.den, R2))
  {
    hide TableOk, CacheOk, Inverse, Kept, Sem, Shannon, Tables.Nodes;
    ghost var s := m.Tab();
    HoldTwo(m, R1, R2);
    ghost var s2 := m.Tab();
    RecKept(s, s2, m.ranks, m.space, sub, r);
    e := Selector(m, r, v, sub);
    ghost var s3 := m.Tab();
    KeptTrans(s, s2, s3);
    KeptEdge(s, s3, m.ranks, R1);
    KeptEdge(s, s3, m.ranks, R2);
    HeldAlive(s3, m.ranks, e.node);
  }

  /** Fetch the results of both children and branch. */
  method Merge(m: Manager, sc: Scratch, T: Edge, E: Edge, r: Rec, v: nat, ghost base: multiset<nat>, ghost sub: Substitution)
    returns (R: Edge)
    requires m.Valid() && Memo(m.Tab(), base, Substituting(sub), sc.Val()) && T.node in sc.aux1 && E.node in sc.aux1
    requires v < |m.ranks| && (v in sub <==> r.rank == m.ranks[v])
    requires r.rank < TERMID ==> RecOk(m.Tab(), m.space, sub, r)
    modifies m
    ensures m.Valid() && m.SameOrder(old(m.ranks), old(m.space), old(m.groups)) && m.reorder == old(m.reorder)
    ensures Memo(m.Tab(), base + multiset{R.node}, Substituting(sub), sc.Val())
    ensures Delivers(old(m.Tab()), m.Tab(), R,
                     Ite(if v in sub then sub[v] else Shannon(v, True(), iset{}),
                         Subst(old(Sem(m.den, T)), sub), Subst(old(Sem(m.den, E)), sub)))
  {
    hide TableOk, CacheOk, Inverse, Kept, Memo, Sem, Subst, Shannon, Ite, Tables.Nodes;
    ghost var s, a := m.Tab(), sc.Val();
    SlotOk(s, m.ranks, base, sub, a, T);
    SlotOk(s, m.ranks, base, sub, a, E);
    var R1, R2 := Slot(sc.Val(), T), Slot(sc.Val(), E);
    var e := Arms(m, R1, R2, r, v, sub);
    R := IteThree(m, e, R1, R2, s);
    MemoBase(s, m.Tab(), base, Substituting(sub), a, multiset{R.node});
    MemoKept(s, m.Tab(), m.ranks, base, base + multiset{R.node}, Substituting(sub), a);
  }

  lemma RecKept(s: Table, t: Table, ranks: seq<nat>, space: seq<nat>, sub: Substitution, r: Rec)
    requires TableOk(s, ranks) && TableOk(t, ranks) && Kept(s, t)
    requires r.rank < TERMID ==> RecOk(s, space, sub, r)
    ensures r.rank < TERMID ==> RecOk(t, space, sub, r)
  {
    if r.rank < TERMID {
      KeptEdge(s, t, ranks, r.sub);
    }
  }

  ghost predicate Known(sub: Substitution, n: nat) {
    forall y: nat :: y in sub ==> y < n
  }

  /** bdd_subst_par_aux: the substituted function of g's node enters its slot. The records before i
      are for variables above g; the memo does not depend on i. */
  method SubstAux(m: Manager, sc: Scratch, g: Edge, rs: seq<Rec>, i: nat, ghost base: multiset<nat>,
                  ghost sub: Substitution, ghost root: nat)
    requires m.Valid() && Memo(m.Tab(), base, Substituting(sub), sc.Val()) && Known(sub, |m.ranks|)
    requires Listing(m.Tab(), m.space, sub, rs) && Behind(rs, i, Rank(m.nodes, m.ranks, g))
    requires Ready(m.Tab(), m.ranks, sc.Val(), Rank(m.nodes, m.ranks, g))
    requires Alive(m.nodes, m.refs, g) && g.node !in sc.mark && Rooted(m.nodes, sc.mark + {g.node}, root)
    modifies m, sc
    ensures m.Valid() && m.SameOrder(old(m.ranks), old(m.space), old(m.groups)) && m.reorder == old(m.reorder)
    ensures Kept(old(m.Tab()), m.Tab()) && Memo(m.Tab(), base, Substituting(sub), sc.Val())
    ensures Grew(old(sc.Val()), sc.Val()) && g.node in sc.aux1 && Rooted(m.nodes, sc.mark, root)
    decreases TERMID - Rank(m.nodes, m.ranks, g), 1
  {
    hide TableOk, CacheOk, Inverse, Kept, Memo, Listing, Ready, Subst, Grew, Rooted, Behind;
    ghost var s, a := m.Tab(), sc.Val();
    MemoMarked(s, base, Substituting(sub), a);
    MemoMark(s, base, Substituting(sub), a, g.node);
    ReadyEnter(s, m.ranks, a, g);
    sc.mark := sc.mark + {g.node};
    ghost var a1 := sc.Val();
    GrewRefl(a1);
    AliveIn(m.nodes, m.refs, g);
    OrderOfTable(s, m.ranks);
    RankBound(m.nodes, m.ranks, g);
    var topG := Rank(m.nodes, m.ranks, g);
    ListingEnd(s, m.space, sub, rs);
    var j := Skip(rs, i, topG);
    BehindIn(rs, j, topG);
    ListingAt(s, m.space, sub, rs, j);
    if rs[j].rank == TERMID {
      NothingBelow(s, m.ranks, m.space, sub, rs, j, g);
      Keep(m, sc, g, base, sub);
      GrewDone(a, a1, sc.Val(), g.node);
      RootedKept(s, m.Tab(), m.ranks, base, Substituting(sub), a1, topG + 1, root);
    } else {
      NotTerminal(s, m.ranks, g, rs, j);
      ghost var b := SubstNode(m, sc, g, rs, j, base, sub, root);
      GrewDone(a, b, sc.Val(), g.node);
    }
  }

  lemma ListingEnd(s: Table, space: seq<nat>, sub: Substitution, rs: seq<Rec>)
    requires Listing(s, space, sub, rs)
    ensures rs != [] && rs[|rs| - 1].rank == TERMID
  {
  }

  lemma BehindIn(rs: seq<Rec>, j: nat, r: nat)
    requires Behind(rs, j, r)
    ensures j < |rs|
  {
  }

  lemma BehindLower(rs: seq<Rec>, j: nat, r: nat, r': nat)
    requires Behind(rs, j, r) && r <= r'
    ensures Behind(rs, j, r')
  {
  }

  /** A record that is not the sentinel and not above g shows that g is no constant. */
  lemma NotTerminal(s: Table, ranks: seq<nat>, g: Edge, rs: seq<Rec>, j: nat)
    requires TableOk(s, ranks) && In(s.g, g) && j < |rs| && Rank(s.g, ranks, g) <= rs[j].rank < TERMID
    ensures g.node in s.g
  {
  }

  /** One child: recurse unless it has been handled. */
  method SubstKid(m: Manager, sc: Scratch, g: Edge, kid: Edge, rs: seq<Rec>, j: nat, ghost base: multiset<nat>,
                  ghost sub: Substitution, ghost root: nat)
    requires m.Valid() && Memo(m.Tab(), base, Substituting(sub), sc.Val()) && Known(sub, |m.ranks|)
    requires Listing(m.Tab(), m.space, sub, rs) && Behind(rs, j, Rank(m.nodes, m.ranks, g))
    requires Alive(m.nodes, m.refs, g) && g.node in m.nodes && (kid == m.nodes[g.node].thn || kid == m.nodes[g.node].els)
    requires Ready(m.Tab(), m.ranks, sc.Val(), Rank(m.nodes, m.ranks, g) + 1)
    requires g.node in sc.mark && Rooted(m.nodes, sc.mark, root)
    modifies m, sc
    ensures m.Valid() && m.SameOrder(old(m.ranks), old(m.space), old(m.groups)) && m.reorder == old(m.reorder)
    ensures Kept(old(m.Tab()), m.Tab()) && Memo(m.Tab(), base, Substituting(sub), sc.Val())
    ensures Grew(old(sc.Val()), sc.Val()) && kid.node in sc.aux1 && Rooted(m.nodes, sc.mark, root)
    ensures Ready(m.Tab(), m.ranks, sc.Val(), old(Rank(m.nodes, m.ranks, g)) + 1)
    decreases TERMID - Rank(m.nodes, m.ranks, g), 0, 0
  {
    hide TableOk, CacheOk, Inverse, Kept, Memo, Listing, Ready, Grew, Rooted, Behind, Known;
    ghost var s, a, r := m.Tab(), sc.Val(), Rank(m.nodes, m.ranks, g) + 1;
    ReadyBelow(s, m.ranks, a, g, kid);
    if kid.node !in sc.mark {
      RootedChild(m.nodes, sc.mark, root, g.node, kid.node);
      BehindLower(rs, j, Rank(m.nodes, m.ranks, g), Rank(m.nodes, m.ranks, kid));
      SubstAux(m, sc, kid, rs, j, base, sub, root);
    } else {
      CoreKeys(s, m.ranks);
      KeptRefl(s);
      GrewRefl(a);
    }
    ReadyKept(s, m.Tab(), m.ranks, a, sc.Val(), r);
  }

  /** Both children, then the node itself. */
  method SubstNode(m: Manager, sc: Scratch, g: Edge, rs: seq<Rec>, j: nat, ghost base: multiset<nat>,
                   ghost sub: Substitution, ghost root: nat)
    returns (ghost b: Aux)
    requires m.Valid() && Memo(m.Tab(), base, Substituting(sub), sc.Val()) && Known(sub, |m.ranks|)
    requires Listing(m.Tab(), m.space, sub, rs) && Behind(rs, j, Rank(m.nodes, m.ranks, g))
    requires j < |rs| && Rank(m.nodes, m.ranks, g) <= rs[j].rank < TERMID
    requires Alive(m.nodes, m.refs, g) && g.node in m.nodes && g.node in sc.mark && g.node !in sc.aux1
    requires Ready(m.Tab(), m.ranks, sc.Val(), Rank(m.nodes, m.ranks, g) + 1) && Rooted(m.nodes, sc.mark, root)
    modifies m, sc
    ensures m.Valid() && m.SameOrder(old(m.ranks), old(m.space), old(m.groups)) && m.reorder == old(m.reorder)
    ensures Kept(old(m.Tab()), m.Tab()) && Memo(m.Tab(), base, Substituting(sub), sc.Val())
    ensures Grew(old(sc.Val()), b) && g.node !in b.aux1 && Rooted(m.nodes, sc.mark, root)
    ensures sc.mark == b.mark && sc.aux1.Keys == b.aux1.Keys + {g.node}
    decreases TERMID - Rank(m.nodes, m.ranks, g), 0, 1
  {
    hide TableOk, CacheOk, Inverse, Kept, Memo, Listing, Ready, Grew, Rooted, Behind, Known;
    ghost var s, a, r := m.Tab(), sc.Val(), Rank(m.nodes, m.ranks, g) + 1;
    var nd := m.nodes[g.node];
    SubstKid(m, sc, g, nd.thn, rs, j, base, sub, root);
    ghost var s1, a1 := m.Tab(), sc.Val();
    KeptNode(s, s1, m.ranks, g);
    GrewRefl(a);
    GrewKeeps(a, a, a1, g.node, g.node);
    ListingKept(s, s1, m.ranks, m.space, sub, rs);
    SubstKid(m, sc, g, nd.els, rs, j, base, sub, root);
    b := sc.Val();
    GrewTrans(a, a1, b);
    GrewKeeps(a, a1, b, g.node, nd.thn.node);
    ghost var s2 := m.Tab();
    KeptNode(s1, s2, m.ranks, g);
    KeptTrans(s, s1, s2);
    ListingKept(s1, s2, m.ranks, m.space, sub, rs);
    Branch(m, sc, g, rs, j, base, sub);
    RootedKept(s2, m.Tab(), m.ranks, base, Substituting(sub), b, r, root);
    KeptTrans(s, s2, m.Tab());
  }

  lemma TopKnown(ranks: seq<nat>, space: seq<nat>, v: nat)
    requires Inverse(ranks, space) && v < |ranks|
    ensures ranks[v] < |space| && space[ranks[v]] == v
  {
  }

  /** The node itself, once its children are in the memo. */
  method Branch(m: Manager, sc: Scratch, g: Edge, rs: seq<Rec>, j: nat, ghost base: multiset<nat>, ghost sub: Substitution)
    requires m.Valid() && Memo(m.Tab(), base, Substituting(sub), sc.Val()) && Alive(m.nodes, m.refs, g)
    requires g.node in m.nodes && g.node in sc.mark && g.node !in sc.aux1
    requires m.nodes[g.node].thn.node in sc.aux1 && m.nodes[g.node].els.node in sc.aux1
    requires Listing(m.Tab(), m.space, sub, rs) && Behind(rs, j, Rank(m.nodes, m.ranks, g))
    requires j < |rs| && Rank(m.nodes, m.ranks, g) <= rs[j].rank < TERMID
    modifies m, sc`aux1
    ensures m.Valid() && m.SameOrder(old(m.ranks), old(m.space), old(m.groups)) && m.reorder == old(m.reorder)
    ensures Kept(old(m.Tab()), m.Tab()) && Memo(m.Tab(), base, Substituting(sub), sc.Val())
    ensures sc.aux1.Keys == old(sc.aux1.Keys) + {g.node}
  {
    hide TableOk, CacheOk, Inverse, Kept, Memo, Subst, Listing, Behind;
    ghost var s := m.Tab();
    var nd := m.nodes[g.node];
    NodeRanks(s, m.ranks, g);
    TopKnown(m.ranks, m.space, nd.varid);
    ListingAt(s, m.space, sub, rs, j);
    NextIsTop(s, m.space, sub, rs, j, m.ranks[nd.varid]);
    SubstStep(s, m.ranks, g.node, sub);
    var R := Merge(m, sc, nd.thn, nd.els, rs[j], nd.varid, base, sub);
    KeptKids(s, m.Tab(), m.ranks, g);
    Finish(m, sc, g, R, base, sub);
  }

  /** The substitution that a list of variables and a vector of functions ask for; a variable
      without function is left alone. */
  ghost function Asked(den: Den, vars: seq<nat>, fs: seq<Pointer>): Substitution
    requires |vars| <= |fs| && Distinct(vars)
  {
    map i | 0 <= i < |vars| && fs[i].To? :: vars[i] := Sem(den, fs[i].e)
  }

  predicate DistinctRanks(rs: seq<Rec>) {
    forall i, j :: 0 <= i < j < |rs| ==> rs[i].rank != rs[j].rank
  }

  function Insert(r: Rec, rs: seq<Rec>): (q: seq<Rec>)
    requires Sorted(rs) && r.rank !in RankSet(rs)
    ensures Sorted(q) && |q| == |rs| + 1 && (forall x :: x in q <==> x == r || x in rs)
  {
    if rs == [] then [r]
    else if r.rank < rs[0].rank then
      Heads(r, rs);
      [r] + rs
    else
      Tails(rs);
      var q := Insert(r, rs[1..]);
      Heads(rs[0], q);
      [rs[0]] + q
  }

  /** A record in front of higher ones. */
  lemma Heads(r: Rec, q: seq<Rec>)
    requires Sorted(q) && ((forall x :: x in q ==> r.rank < x.rank) || (|q| > 0 && r.rank < q[0].rank))
    ensures Sorted([r] + q) && (forall x :: x in [r] + q <==> x == r || x in q)
  {
    forall k {:trigger q[k]} | 0 <= k < |q|
      ensures r.rank < q[k].rank
    {
      assert q[k] in q;
    }
  }

  lemma Tails(rs: seq<Rec>)
    requires Sorted(rs) && |rs| > 0
    ensures Sorted(rs[1..]) && RankSet(rs[1..]) <= RankSet(rs) && rs[0].rank in RankSet(rs)
    ensures forall x :: x in rs[1..] ==> rs[0].rank < x.rank
    ensures forall x :: x in rs <==> x == rs[0] || x in rs[1..]
  {
    assert rs == [rs[0]] + rs[1..];
  }

  /** The records by rank (qsort with subst_par_comp). */
  function ByRank(rs: seq<Rec>): (q: seq<Rec>)
    requires DistinctRanks(rs)
    ensures Sorted(q) && |q| == |rs| && (forall x :: x in q <==> x in rs)
  {
    if rs == [] then []
    else
      var q := ByRank(rs[1..]);
      assert forall k {:trigger q[k]} :: 0 <= k < |q| ==> q[k] in rs[1..];
      Insert(rs[0], q)
  }

  /** The list names known variables, and the functions given are alive. */
  ghost predicate VectorOk(s: Table, n: nat, vars: seq<nat>, fs: seq<Pointer>) {
    && |vars| <= |fs| && Distinct(vars)
    && (forall i {:trigger vars[i]} :: 0 <= i < |vars| ==> vars[i] < n && (fs[i].To? ==> Alive(s.g, s.refs, fs[i].e)))
  }

  /** Variable i of the list has its record. */
  predicate HasRec(ranks: seq<nat>, vars: seq<nat>, fs: seq<Pointer>, rs: seq<Rec>, i: nat) {
    i < |vars| && i < |fs| && vars[i] < |ranks| && (fs[i].To? ==> Rec(ranks[vars[i]], fs[i].e) in rs)
  }

  /** Record r comes from one of the first n variables. */
  ghost predicate FromList(ranks: seq<nat>, vars: seq<nat>, fs: seq<Pointer>, n: nat, r: Rec) {
    exists i {:trigger vars[i]} :: 0 <= i < n && i < |vars| && i < |fs| && vars[i] < |ranks| && fs[i] == To(r.sub) && r.rank == ranks[vars[i]]
  }

  /** What has been gathered from the first n variables. */
  ghost predicate Gathered(ranks: seq<nat>, vars: seq<nat>, fs: seq<Pointer>, n: nat, rs: seq<Rec>) {
    && n <= |vars| && DistinctRanks(rs)
    && (forall r {:trigger r in rs} :: r in rs ==> FromList(ranks, vars, fs, n, r))
    && (forall i {:trigger HasRec(ranks, vars, fs, rs, i)} :: 0 <= i < n ==> HasRec(ranks, vars, fs, rs, i))
  }

  lemma GatherOne(ranks: seq<nat>, space: seq<nat>, vars: seq<nat>, fs: seq<Pointer>, n: nat, rs: seq<Rec>)
    requires |vars| <= |fs| && Distinct(vars) && Inverse(ranks, space) && n < |vars| && vars[n] < |ranks|
    requires Gathered(ranks, vars, fs, n, rs)
    ensures Gathered(ranks, vars, fs, n + 1, if fs[n].To? then rs + [Rec(ranks[vars[n]], fs[n].e)] else rs)
  {
    var rs' := if fs[n].To? then rs + [Rec(ranks[vars[n]], fs[n].e)] else rs;
    forall r | r in rs'
      ensures FromList(ranks, vars, fs, n + 1, r)
    {
      if r in rs {
        assert FromList(ranks, vars, fs, n, r);
      }
    }
    forall i | 0 <= i < n + 1
      ensures HasRec(ranks, vars, fs, rs', i)
    {
      assert i < n ==> HasRec(ranks, vars, fs, rs, i);
    }
    if fs[n].To? {
      RankIsNew(ranks, space, vars, fs, n, rs);
    }
  }

  /** Distinct variables have distinct ranks. */
  lemma RankIsNew(ranks: seq<nat>, space: seq<nat>, vars: seq<nat>, fs: seq<Pointer>, n: nat, rs: seq<Rec>)
    requires |vars| <= |fs| && Distinct(vars) && Inverse(ranks, space) && n < |vars| && vars[n] < |ranks|
    requires Gathered(ranks, vars, fs, n, rs)
    ensures forall k {:trigger rs[k]} :: 0 <= k < |rs| ==> rs[k].rank != ranks[vars[n]]
  {
    forall k {:trigger rs[k]} | 0 <= k < |rs|
      ensures rs[k].rank != ranks[vars[n]]
    {
      assert rs[k] in rs;
      var i :| 0 <= i < n && i < |vars| && i < |fs| && vars[i] < |ranks| && fs[i] == To(rs[k].sub) && rs[k].rank == ranks[vars[i]];
      assert space[ranks[vars[i]]] == vars[i] && space[ranks[vars[n]]] == vars[n];
    }
  }

  method Gather(m: Manager, vars: seq<nat>, fs: seq<Pointer>) returns (rs: seq<Rec>)
    requires m.Valid() && VectorOk(m.Tab(), |m.ranks|, vars, fs)
    ensures Gathered(m.ranks, vars, fs, |vars|, rs)
  {
    hide TableOk, CacheOk, Gathered, Inverse;
    rs := [];
    GatherNone(m.ranks, vars, fs);
    for n := 0 to |vars|
      invariant Gathered(m.ranks, vars, fs, n, rs)
    {
      assert vars[n] < |m.ranks|;
      GatherOne(m.ranks, m.space, vars, fs, n, rs);
      if fs[n].To? {
        rs := rs + [Rec(m.ranks[vars[n]], fs[n].e)];
      }
    }
  }

  lemma GatherNone(ranks: seq<nat>, vars: seq<nat>, fs: seq<Pointer>)
    ensures Gathered(ranks, vars, fs, 0, [])
  {
  }

  /** A gathered record stands for an entry of the substitution asked for. */
  lemma GatheredRec(s: Table, ranks: seq<nat>, space: seq<nat>, vars: seq<nat>, fs: seq<Pointer>, n: nat, r: Rec)
    requires VectorOk(s, |ranks|, vars, fs) && Inverse(ranks, space) && |space| <= TERMID
    requires FromList(ranks, vars, fs, n, r)
    ensures RecOk(s, space, Asked(s.den, vars, fs), r) && r.rank < TERMID
  {
    var i :| 0 <= i < n && i < |vars| && i < |fs| && vars[i] < |ranks| && fs[i] == To(r.sub) && r.rank == ranks[vars[i]];
    assert space[r.rank] == vars[i];
    AskedAt(s.den, vars, fs, i);
  }

  lemma AskedAt(den: Den, vars: seq<nat>, fs: seq<Pointer>, i: nat)
    requires |vars| <= |fs| && Distinct(vars) && i < |vars| && fs[i].To?
    ensures vars[i] in Asked(den, vars, fs) && Asked(den, vars, fs)[vars[i]] == Sem(den, fs[i].e)
  {
  }

  /** Every entry of the substitution asked for has its record. */
  lemma AskedGathered(s: Table, ranks: seq<nat>, vars: seq<nat>, fs: seq<Pointer>, rs: seq<Rec>, y: nat)
    requires |vars| <= |fs| && Distinct(vars) && Gathered(ranks, vars, fs, |vars|, rs) && y in Asked(s.den, vars, fs)
    ensures y < |ranks| && exists r :: r in rs && r.rank == ranks[y]
  {
    var i :| 0 <= i < |vars| && fs[i].To? && vars[i] == y;
    assert HasRec(ranks, vars, fs, rs, i);
    assert Rec(ranks[y], fs[i].e) in rs;
  }

  /** Sorted and with its sentinel, the array lists exactly the substitution asked for. */
  lemma GatheredListing(s: Table, ranks: seq<nat>, space: seq<nat>, vars: seq<nat>, fs: seq<Pointer>, rs: seq<Rec>)
    requires VectorOk(s, |ranks|, vars, fs) && Inverse(ranks, space) && |ranks| <= TERMID
    requires Gathered(ranks, vars, fs, |vars|, rs)
    ensures DistinctRanks(rs) && Listing(s, space, Asked(s.den, vars, fs), ByRank(rs) + [Rec(TERMID, ONE)])
  {
    hide FromList, HasRec, RecOk, Asked;
    var sub, q := Asked(s.den, vars, fs), ByRank(rs);
    var all := q + [Rec(TERMID, ONE)];
    assert all[..|all| - 1] == q;
    forall i | 0 <= i < |q|
      ensures RecOk(s, space, sub, q[i]) && q[i].rank < TERMID
    {
      assert q[i] in q;
      GatheredRec(s, ranks, space, vars, fs, |vars|, q[i]);
    }
    forall r | 0 <= r < |space| && space[r] in sub
      ensures r in RankSet(all)
    {
      AskedGathered(s, ranks, vars, fs, rs, space[r]);
      var x :| x in rs && x.rank == r;
      assert x in q;
      assert x in all;
    }
  }

  lemma AskedKnown(den: Den, vars: seq<nat>, fs: seq<Pointer>, n: nat)
    requires |vars| <= |fs| && Distinct(vars) && forall i {:trigger vars[i]} :: 0 <= i < |vars| ==> vars[i] < n
    ensures Known(Asked(den, vars, fs), n)
  {
  }

  /** Where no substitution takes place: nothing is asked for, or g is a constant. */
  lemma NothingAsked(s: Table, g: Edge, sub: Substitution)
    requires 0 !in s.den && (sub == map[] || g.node == 0)
    ensures Subst(Sem(s.den, g), sub) == Sem(s.den, g)
  {
    SubstNone(Sem(s.den, g), sub);
  }

  lemma GatheredNone(s: Table, ranks: seq<nat>, vars: seq<nat>, fs: seq<Pointer>, rs: seq<Rec>)
    requires |vars| <= |fs| && Distinct(vars) && Gathered(ranks, vars, fs, |vars|, rs) && rs == []
    ensures Asked(s.den, vars, fs) == map[]
  {
    if Asked(s.den, vars, fs) != map[] {
      var y :| y in Asked(s.den, vars, fs);
      AskedGathered(s, ranks, vars, fs, rs, y);
      assert false;
    }
  }

  method Copy(m: Manager, g: Edge) returns (R: Pointer)
    requires m.Valid() && Alive(m.nodes, m.refs, g)
    modifies m`refs, m`ext
    ensures m.Valid() && R.To? && Delivers(old(m.Tab()), m.Tab(), R.e, old(Sem(m.den, g)))
  {
    hide TableOk, CacheOk, Inverse, Kept;
    AddRef(m, g);
    AliveIn(m.nodes, m.refs, g);
    R := To(g);
  }

  /** bdd_subst_par: all listed variables that have a function are replaced at once in g; every slot
      is given back. The variables are all distinct. */
  method BddSubstPar(m: Manager, sc: Scratch, fs: seq<Pointer>, vars: seq<nat>, g: Pointer) returns (R: Pointer)
    requires m.Valid() && AliveP(m, g) && VectorOk(m.Tab(), |m.ranks|, vars, fs) && sc.Val() == Aux({}, map[], map[])
    modifies m, sc
    ensures m.Valid() && m.SameOrder(old(m.ranks), old(m.space), old(m.groups)) && m.reorder == old(m.reorder)
    ensures sc.Val() == Aux({}, map[], map[])
    ensures R.Void? <==> g.Void?
    ensures R.Void? ==> m.Tab() == old(m.Tab())
    ensures R.To? ==>
      Delivers(old(m.Tab()), m.Tab(), R.e, Subst(old(Sem(m.den, g.e)), Asked(old(m.den), vars, fs)))
  {
    hide TableOk, CacheOk, Inverse, Kept, Subst, Gathered, Asked, Listing, Known;
    if g.Void? {
      return Void;
    }
    ghost var s, sub := m.Tab(), Asked(m.den, vars, fs);
    CoreKeys(s, m.ranks);
    var rs := Gather(m, vars, fs);
    if g.e.node == 0 || rs == [] {
      if rs == [] {
        GatheredNone(s, m.ranks, vars, fs, rs);
      }
      NothingAsked(s, g.e, sub);
      R := Copy(m, g.e);
      return;
    }
    OrderOfTable(s, m.ranks);
    GatheredListing(s, m.ranks, m.space, vars, fs, rs);
    AskedKnown(m.den, vars, fs, |m.ranks|);
    var save := m.reorder;
    m.reorder := false;
    var r := SubstAll(m, sc, g.e, ByRank(rs) + [Rec(TERMID, ONE)], sub);
    m.reorder := save;
    R := To(r);
  }

  /** The recursion, the result, and the giving back. */
  method SubstAll(m: Manager, sc: Scratch, g: Edge, rs: seq<Rec>, ghost sub: Substitution) returns (R: Edge)
    requires m.Valid() && Alive(m.nodes, m.refs, g) && Listing(m.Tab(), m.space, sub, rs) && Known(sub, |m.ranks|)
    requires sc.Val() == Aux({}, map[], map[])
    modifies m, sc
    ensures m.Valid() && m.SameOrder(old(m.ranks), old(m.space), old(m.groups)) && m.reorder == old(m.reorder)
    ensures sc.Val() == Aux({}, map[], map[])
    ensures Delivers(old(m.Tab()), m.Tab(), R, Subst(old(Sem(m.den, g)), sub))
  {
    hide TableOk, CacheOk, Inverse, Kept, Memo, Ready, Rooted, Grew, Subst, Covers, Listing, Known;
    ghost var s := m.Tab();
    EmptyMemo(s, m.ranks, Substituting(sub), Rank(m.nodes, m.ranks, g), g.node);
    ListingEnd(s, m.space, sub, rs);
    SubstAux(m, sc, g, rs, 0, s.ext, sub, g.node);
    ghost var s1, a := m.Tab(), sc.Val();
    KeptEdge(s, s1, m.ranks, g);
    SlotOk(s1, m.ranks, s.ext, sub, a, g);
    R := Slot(sc.Val(), g);
    AddRef(m, R);
    ghost var s2 := m.Tab();
    KeptEdge(s1, s2, m.ranks, R);
    KeptEdge(s1, s2, m.ranks, g);
    AliveIn(m.nodes, m.refs, R);
    AliveIn(m.nodes, m.refs, g);
    KeptTrans(s, s1, s2);
    GrewClosed(Aux({}, map[], map[]), a);
    CoversMemo(s1, m.ranks, s.ext, Substituting(sub), a, multiset{R.node}, m.ext);
    MemoMarked(s1, s.ext, Substituting(sub), a);
    FreeAll(m, sc, g, s.ext + multiset{R.node}, s);
    KeptAfterFree(s, s2, m.Tab(), m.ranks);
  }
}
