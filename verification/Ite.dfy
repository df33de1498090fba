/** The if-then-else operator: argument normalisation and the cached recursion. */
module IteOps {
  import opened Functions
  import opened Graph
  import opened RefCount
  import opened State
  import opened Tables

  datatype Triple = Triple(f: Edge, g: Edge, h: Edge)

  /** The outcome of normalising: an edge that is the answer already, or a standard triple with
      a flag telling whether the answer must be complemented. */
  datatype Std = Done(e: Edge) | Standard(t: Triple, neg: bool)

  /** Pointer comparison; the inverter bit is the lowest bit of a pointer. */
  predicate PtrLess(e1: Edge, e2: Edge) {
    e1.node < e2.node || (e1.node == e2.node && !e1.neg && e2.neg)
  }

  /** IS_SMALLER_F */
  predicate Smaller(g: Nodes, ranks: seq<nat>, e1: Edge, e2: Edge) {
    Rank(g, ranks, e1) < Rank(g, ranks, e2)
    || (Rank(g, ranks, e1) == Rank(g, ranks, e2) && PtrLess(e1, e2))
  }

  function IntroConstants(t: Triple): Triple {
    Triple(t.f,
           if t.f == t.g then ONE else if t.f == Compl(t.g) then ZERO else t.g,
           if t.f == t.h then ZERO else if t.f == Compl(t.h) then ONE else t.h)
  }

  // The swaps into standard triples, in the order in which they are tried.

  function Swap1(g: Nodes, ranks: seq<nat>, t: Triple): Triple {
    if t.g == ONE && Smaller(g, ranks, t.h, t.f) then Triple(t.h, t.g, t.f) else t
  }

  function Swap2(g: Nodes, ranks: seq<nat>, t: Triple): Triple {
    if t.h == ZERO && Smaller(g, ranks, t.g, t.f) then Triple(t.g, t.f, t.h) else t
  }

  function Swap3(g: Nodes, ranks: seq<nat>, t: Triple): Triple {
    if t.h == ONE && Smaller(g, ranks, t.g, t.f) then Triple(Compl(t.g), Compl(t.f), t.h) else t
  }

  function Swap4(g: Nodes, ranks: seq<nat>, t: Triple): Triple {
    if t.g == ZERO && Smaller(g, ranks, t.h, t.f) then Triple(Compl(t.h), t.g, Compl(t.f)) else t
  }

  function Swap5(g: Nodes, ranks: seq<nat>, t: Triple): Triple {
    if t.g == Compl(t.h) && Smaller(g, ranks, t.g, t.f) then Triple(t.g, t.f, Compl(t.f)) else t
  }

  function PositiveF(t: Triple): Triple {
    if t.f.neg then Triple(Regular(t.f), t.h, t.g) else t
  }

  function PositiveG(t: Triple): Triple {
    if t.g.neg then Triple(t.f, Regular(t.g), Compl(t.h)) else t
  }

  function Swaps(g: Nodes, ranks: seq<nat>, t: Triple): Triple {
    Swap5(g, ranks, Swap4(g, ranks, Swap3(g, ranks, Swap2(g, ranks, Swap1(g, ranks, t)))))
  }

  function Positive(t: Triple): Std {
    var p := PositiveF(t);
    Standard(PositiveG(p), p.g.neg)
  }

  function Standardize(g: Nodes, ranks: seq<nat>, t: Triple): Std {
    if t.f == ZERO then Done(t.h)
    else if t.f == ONE then Done(t.g)
    else
      var c := IntroConstants(t);
      if c.g == ONE && c.h == ZERO then Done(c.f)
      else if c.g == ZERO && c.h == ONE then Done(Compl(c.f))
      else if c.g == c.h then Done(c.g)
      else
        Positive(Swaps(g, ranks, c))
  }

  ghost function Meaning(den: Den, t: Triple): Fn {
    Ite(Sem(den, t.f), Sem(den, t.g), Sem(den, t.h))
  }

  function TopRank(g: Nodes, ranks: seq<nat>, t: Triple): nat {
    Min3(Rank(g, ranks, t.f), Rank(g, ranks, t.g), Rank(g, ranks, t.h))
  }

  /** No argument is answered by the trivial cases. */
  predicate Proper(t: Triple) {
    && t.f.node != 0
    && t.g != t.h
    && !(t.g == ONE && t.h == ZERO)
    && !(t.g == ZERO && t.h == ONE)
  }

  predicate From(t: Triple, e: Edge) {
    e.node == 0 || e.node == t.f.node || e.node == t.g.node || e.node == t.h.node
  }

  /** t' uses only nodes of t, and no node of lower rank than they had. */
  predicate Drawn(g: Nodes, ranks: seq<nat>, t: Triple, t': Triple) {
    && From(t, t'.f) && From(t, t'.g) && From(t, t'.h)
    && TopRank(g, ranks, t') >= TopRank(g, ranks, t)
  }

  lemma ConstSem(den: Den)
    requires 0 !in den
    ensures Sem(den, ONE) == True() && Sem(den, ZERO) == iset{}
  {
  }

  lemma IntroConstantsOk(g: Nodes, ranks: seq<nat>, den: Den, t: Triple)
    requires 0 !in den && 0 !in g && |ranks| <= TERMID && OrderOk(ranks)
    ensures Meaning(den, IntroConstants(t)) == Meaning(den, t)
    ensures Drawn(g, ranks, t, IntroConstants(t))
  {
    RankBound(g, ranks, t.g);
    RankBound(g, ranks, t.h);
  }

  lemma Swap1Ok(g: Nodes, ranks: seq<nat>, den: Den, t: Triple)
    requires 0 !in den && Proper(t)
    ensures var t' := Swap1(g, ranks, t); Proper(t') && Meaning(den, t') == Meaning(den, t) && Drawn(g, ranks, t, t')
  {
  }

  lemma Swap2Ok(g: Nodes, ranks: seq<nat>, den: Den, t: Triple)
    requires 0 !in den && Proper(t)
    ensures var t' := Swap2(g, ranks, t); Proper(t') && Meaning(den, t') == Meaning(den, t) && Drawn(g, ranks, t, t')
  {
  }

  lemma Swap3Ok(g: Nodes, ranks: seq<nat>, den: Den, t: Triple)
    requires 0 !in den && Proper(t)
    ensures var t' := Swap3(g, ranks, t); Proper(t') && Meaning(den, t') == Meaning(den, t) && Drawn(g, ranks, t, t')
  {
  }

  lemma Swap4Ok(g: Nodes, ranks: seq<nat>, den: Den, t: Triple)
    requires 0 !in den && Proper(t)
    ensures var t' := Swap4(g, ranks, t); Proper(t') && Meaning(den, t') == Meaning(den, t) && Drawn(g, ranks, t, t')
  {
  }

  lemma Swap5Ok(g: Nodes, ranks: seq<nat>, den: Den, t: Triple)
    requires 0 !in den && Proper(t)
    ensures var t' := Swap5(g, ranks, t); Proper(t') && Meaning(den, t') == Meaning(den, t) && Drawn(g, ranks, t, t')
  {
  }

  lemma PositiveOk(g: Nodes, ranks: seq<nat>, den: Den, t: Triple)
    requires 0 !in den && Proper(t)
    ensures var p := PositiveF(t); var q := PositiveG(p);
      && Proper(q) && Drawn(g, ranks, t, q) && !q.f.neg && !q.g.neg
      && Meaning(den, t) == if p.g.neg then Not(Meaning(den, q)) else Meaning(den, q)
  {
  }

  lemma DrawnTrans(g: Nodes, ranks: seq<nat>, t: Triple, u: Triple, w: Triple)
    requires Drawn(g, ranks, t, u) && Drawn(g, ranks, u, w)
    ensures Drawn(g, ranks, t, w)
  {
  }

  /** The meaning of a normalisation outcome. */
  ghost function StdMeaning(den: Den, s: Std): Fn {
    match s
    case Done(e) => Sem(den, e)
    case Standard(t, neg) => if neg then Not(Meaning(den, t)) else Meaning(den, t)
  }

  /** Normalising keeps the function, draws only on the arguments' nodes, and ends in a
      non-constant positive first argument with a positive second one. */
  lemma StandardizeOk(g: Nodes, ranks: seq<nat>, den: Den, t: Triple)
    requires 0 !in den && 0 !in g && OrderOk(ranks)
    ensures var s := Standardize(g, ranks, t);
      && StdMeaning(den, s) == Meaning(den, t)
      && (s.Done? ==> From(t, s.e) && Rank(g, ranks, s.e) >= TopRank(g, ranks, t))
      && (s.Standard? ==> Drawn(g, ranks, t, s.t) && Proper(s.t) && !s.t.f.neg && !s.t.g.neg)
  {
    hide Meaning, Swap1, Swap2, Swap3, Swap4, Swap5, PositiveF, PositiveG;
    ConstSem(den);
    TrivialOk(g, ranks, den, t);
    if t.f != ZERO && t.f != ONE {
      var c := IntroConstants(t);
      IntroConstantsOk(g, ranks, den, t);
      TrivialOk(g, ranks, den, c);
      if Proper(c) {
        var s1 := Swap1(g, ranks, c);
        Swap1Ok(g, ranks, den, c);
        var s2 := Swap2(g, ranks, s1);
        Swap2Ok(g, ranks, den, s1);
        var s3 := Swap3(g, ranks, s2);
        Swap3Ok(g, ranks, den, s2);
        var s4 := Swap4(g, ranks, s3);
        Swap4Ok(g, ranks, den, s3);
        var s5 := Swap5(g, ranks, s4);
        Swap5Ok(g, ranks, den, s4);
        PositiveOk(g, ranks, den, s5);
        DrawnTrans(g, ranks, t, c, s1);
        DrawnTrans(g, ranks, t, s1, s2);
        DrawnTrans(g, ranks, t, s2, s3);
        DrawnTrans(g, ranks, t, s3, s4);
        DrawnTrans(g, ranks, t, s4, s5);
        DrawnTrans(g, ranks, t, s5, PositiveG(PositiveF(s5)));
      }
    }
  }

  /** The outcome for the complement. */
  function Opposite(s: Std): Std {
    match s
    case Done(e) => Done(Compl(e))
    case Standard(t, neg) => Standard(t, !neg)
  }

  /** Of two different edges exactly one is smaller; complementing both does not matter unless they
      share a node. */
  lemma SmallerTotal(g: Nodes, ranks: seq<nat>, a: Edge, b: Edge)
    ensures a != b ==> (Smaller(g, ranks, a, b) <==> !Smaller(g, ranks, b, a))
    ensures a.node != b.node ==>
      && (Smaller(g, ranks, Compl(a), Compl(b)) <==> Smaller(g, ranks, a, b))
      && (Smaller(g, ranks, Compl(a), b) <==> Smaller(g, ranks, a, b))
      && (Smaller(g, ranks, a, Compl(b)) <==> Smaller(g, ranks, a, b))
    ensures !Smaller(g, ranks, a, a)
  {
  }

  /** f or h, in either order. */
  lemma OrCommutes(g: Nodes, ranks: seq<nat>, f: Edge, h: Edge)
    ensures Standardize(g, ranks, Triple(f, ONE, h)) == Standardize(g, ranks, Triple(h, ONE, f))
  {
    hide Smaller;
    SmallerTotal(g, ranks, f, h);
  }

  /** f and k, in either order. */
  lemma AndCommutes(g: Nodes, ranks: seq<nat>, f: Edge, k: Edge)
    ensures Standardize(g, ranks, Triple(f, k, ZERO)) == Standardize(g, ranks, Triple(k, f, ZERO))
  {
    hide Smaller;
    SmallerTotal(g, ranks, f, k);
  }

  /** f implies k, and its contraposition. */
  lemma ImpliesTurns(g: Nodes, ranks: seq<nat>, f: Edge, k: Edge)
    ensures Standardize(g, ranks, Triple(f, k, ONE)) == Standardize(g, ranks, Triple(Compl(k), Compl(f), ONE))
  {
    hide Smaller;
    SmallerTotal(g, ranks, f, k);
    SmallerTotal(g, ranks, k, f);
    SmallerTotal(g, ranks, Compl(f), Compl(k));
  }

  /** h without f, in both ways. */
  lemma DiffTurns(g: Nodes, ranks: seq<nat>, f: Edge, h: Edge)
    ensures Standardize(g, ranks, Triple(f, ZERO, h)) == Standardize(g, ranks, Triple(Compl(h), ZERO, Compl(f)))
  {
    hide Smaller;
    SmallerTotal(g, ranks, f, h);
    SmallerTotal(g, ranks, h, f);
    SmallerTotal(g, ranks, Compl(f), Compl(h));
  }

  /** f equivalent to k, in either order. */
  lemma XnorCommutes(g: Nodes, ranks: seq<nat>, f: Edge, k: Edge)
    ensures Standardize(g, ranks, Triple(f, k, Compl(k))) == Standardize(g, ranks, Triple(k, f, Compl(f)))
  {
    hide Smaller;
    SmallerTotal(g, ranks, f, k);
    SmallerTotal(g, ranks, k, f);
  }

  lemma SwapsFlip(g: Nodes, ranks: seq<nat>, t: Triple)
    requires Proper(t) && t.f.node != t.g.node && t.f.node != t.h.node
    ensures Positive(Swaps(g, ranks, Triple(Compl(t.f), t.g, t.h))) == Positive(Swaps(g, ranks, Triple(t.f, t.h, t.g)))
  {
    hide Smaller;
    SmallerTotal(g, ranks, t.g, t.f);
    SmallerTotal(g, ranks, t.h, t.f);
  }

  lemma SwapsTurn(g: Nodes, ranks: seq<nat>, t: Triple)
    requires Proper(t) && t.f.node != t.g.node && t.f.node != t.h.node
    ensures Positive(Swaps(g, ranks, Triple(t.f, Compl(t.g), Compl(t.h)))) == Opposite(Positive(Swaps(g, ranks, t)))
  {
    hide Smaller;
    SmallerTotal(g, ranks, t.g, t.f);
    SmallerTotal(g, ranks, t.h, t.f);
  }

  lemma IntroFlip(t: Triple)
    requires t.f.node != 0
    ensures var c := IntroConstants(t);
      && c.f == t.f && c.f.node != c.g.node && c.f.node != c.h.node
      && IntroConstants(Triple(Compl(t.f), t.g, t.h))
         == Triple(Compl(t.f), IntroConstants(Triple(t.f, t.h, t.g)).h, IntroConstants(Triple(t.f, t.h, t.g)).g)
      && IntroConstants(Triple(t.f, Compl(t.g), Compl(t.h))) == Triple(t.f, Compl(c.g), Compl(c.h))
  {
  }

  /** A complemented first argument exchanges the others. */
  lemma FlipFirst(g: Nodes, ranks: seq<nat>, t: Triple)
    ensures Standardize(g, ranks, Triple(Compl(t.f), t.g, t.h)) == Standardize(g, ranks, Triple(t.f, t.h, t.g))
  {
    hide Swaps, Positive, IntroConstants;
    if t.f.node != 0 {
      var u := Triple(t.f, t.h, t.g);
      IntroFlip(u);
      IntroFlip(t);
      var c := IntroConstants(u);
      if Proper(c) {
        SwapsFlip(g, ranks, Triple(c.f, c.h, c.g));
      }
    }
  }

  /** Complementing both branches complements the outcome. */
  lemma FlipResult(g: Nodes, ranks: seq<nat>, t: Triple)
    ensures Standardize(g, ranks, Triple(t.f, Compl(t.g), Compl(t.h))) == Opposite(Standardize(g, ranks, t))
  {
    hide Swaps, Positive, IntroConstants;
    if t.f.node != 0 {
      IntroFlip(t);
      var c := IntroConstants(t);
      if Proper(c) {
        SwapsTurn(g, ranks, c);
      }
    }
  }

  lemma TrivialOk(g: Nodes, ranks: seq<nat>, den: Den, t: Triple)
    requires 0 !in den && 0 !in g
    ensures t.f == ZERO ==> Meaning(den, t) == Sem(den, t.h)
    ensures t.f == ONE ==> Meaning(den, t) == Sem(den, t.g)
    ensures t.g == ONE && t.h == ZERO ==> Meaning(den, t) == Sem(den, t.f)
    ensures t.g == ZERO && t.h == ONE ==> Meaning(den, t) == Sem(den, Compl(t.f))
    ensures t.g == t.h ==> Meaning(den, t) == Sem(den, t.g)
    ensures Rank(g, ranks, t.f) >= TopRank(g, ranks, t) && Rank(g, ranks, Compl(t.f)) >= TopRank(g, ranks, t)
    ensures Rank(g, ranks, t.g) >= TopRank(g, ranks, t) && Rank(g, ranks, t.h) >= TopRank(g, ranks, t)
  {
    ConstSem(den);
  }

  function VarId(g: Nodes, e: Edge): nat {
    if e.node in g then g[e.node].varid else TERMID
  }

  /** EXP_POS_F, EXP_POS2_F and their negative counterparts: the cofactor of e at a rank that is
      not above its own. */
  function ExpPos(g: Nodes, ranks: seq<nat>, e: Edge, rank: nat): Edge {
    if rank < Rank(g, ranks, e) then e else CofPos(g, e)
  }

  function ExpNeg(g: Nodes, ranks: seq<nat>, e: Edge, rank: nat): Edge {
    if rank < Rank(g, ranks, e) then e else CofNeg(g, e)
  }

  /** Expanding an edge over the variable v of the given rank. */
  lemma ExpOk(s: Table, ranks: seq<nat>, space: seq<nat>, e: Edge, v: nat)
    requires TableOk(s, ranks) && Inverse(ranks, space) && Alive(s.g, s.refs, e)
    requires v < |ranks| && ranks[v] <= Rank(s.g, ranks, e)
    ensures Alive(s.g, s.refs, ExpPos(s.g, ranks, e, ranks[v])) && Alive(s.g, s.refs, ExpNeg(s.g, ranks, e, ranks[v]))
    ensures Rank(s.g, ranks, ExpPos(s.g, ranks, e, ranks[v])) > ranks[v]
    ensures Rank(s.g, ranks, ExpNeg(s.g, ranks, e, ranks[v])) > ranks[v]
    ensures Sem(s.den, e) == Shannon(v, Sem(s.den, ExpPos(s.g, ranks, e, ranks[v])), Sem(s.den, ExpNeg(s.g, ranks, e, ranks[v])))
  {
    CofactorsAlive(s, ranks, e);
    if ranks[v] == Rank(s.g, ranks, e) {
      TerminalRank(s.g, ranks, e);
      CofactorRanks(s.g, ranks, e);
      SemExpand(s.g, s.den, e);
      assert NodeOk(s.g, ranks, e.node);
      assert space[ranks[v]] == v;
    } else {
      ShannonSame(v, Sem(s.den, e));
    }
  }

  /** The variable at the top of a triple, and its rank. */
  lemma TopVar(s: Table, ranks: seq<nat>, t: Triple, v: nat)
    requires TableOk(s, ranks) && t.f.node in s.g
    requires v == TopVarId(s.g, ranks, t)
    ensures v < |ranks| && ranks[v] == TopRank(s.g, ranks, t)
  {
    TerminalRank(s.g, ranks, t.f);
    TerminalRank(s.g, ranks, t.g);
    TerminalRank(s.g, ranks, t.h);
    if t.f.node in s.g { assert NodeOk(s.g, ranks, t.f.node); }
    if t.g.node in s.g { assert NodeOk(s.g, ranks, t.g.node); }
    if t.h.node in s.g { assert NodeOk(s.g, ranks, t.h.node); }
  }

  function TopVarId(g: Nodes, ranks: seq<nat>, t: Triple): nat {
    var topF, topG, topH := Rank(g, ranks, t.f), Rank(g, ranks, t.g), Rank(g, ranks, t.h);
    var (varid, rank) := if topG < topH then (VarId(g, t.g), topG) else (VarId(g, t.h), topH);
    if topF < rank then VarId(g, t.f) else varid
  }

  ghost predicate AliveT(s: Table, t: Triple) {
    Alive(s.g, s.refs, t.f) && Alive(s.g, s.refs, t.g) && Alive(s.g, s.refs, t.h)
  }

  lemma IteShannon(v: nat, f1: Fn, f0: Fn, g1: Fn, g0: Fn, h1: Fn, h0: Fn)
    ensures Ite(Shannon(v, f1, f0), Shannon(v, g1, g0), Shannon(v, h1, h0))
         == Shannon(v, Ite(f1, g1, h1), Ite(f0, g0, h0))
  {
  }

  /** The two cofactor triples: alive, strictly higher, and together the whole function. */
  lemma SplitOk(s: Table, ranks: seq<nat>, space: seq<nat>, t: Triple, v: nat, p: Triple, n: Triple)
    requires TableOk(s, ranks) && Inverse(ranks, space) && AliveT(s, t)
    requires v < |ranks| && ranks[v] == TopRank(s.g, ranks, t)
    requires p == Triple(ExpPos(s.g, ranks, t.f, ranks[v]), ExpPos(s.g, ranks, t.g, ranks[v]), ExpPos(s.g, ranks, t.h, ranks[v]))
    requires n == Triple(ExpNeg(s.g, ranks, t.f, ranks[v]), ExpNeg(s.g, ranks, t.g, ranks[v]), ExpNeg(s.g, ranks, t.h, ranks[v]))
    ensures AliveT(s, p) && AliveT(s, n)
    ensures ranks[v] < TopRank(s.g, ranks, p) <= TERMID && ranks[v] < TopRank(s.g, ranks, n) <= TERMID
    ensures Meaning(s.den, t) == Shannon(v, Meaning(s.den, p), Meaning(s.den, n))
  {
    ExpOk(s, ranks, space, t.f, v);
    ExpOk(s, ranks, space, t.g, v);
    ExpOk(s, ranks, space, t.h, v);
    RankBound(s.g, ranks, p.f);
    RankBound(s.g, ranks, n.f);
    IteShannon(v, Sem(s.den, p.f), Sem(s.den, n.f), Sem(s.den, p.g), Sem(s.den, n.g), Sem(s.den, p.h), Sem(s.den, n.h));
  }

  lemma KeptTriple(s: Table, u: Table, ranks: seq<nat>, t: Triple)
    requires TableOk(s, ranks) && TableOk(u, ranks) && Kept(s, u) && AliveT(s, t)
    ensures AliveT(u, t) && Meaning(u.den, t) == Meaning(s.den, t)
    ensures TopRank(u.g, ranks, t) == TopRank(s.g, ranks, t)
  {
    KeptEdge(s, u, ranks, t.f);
    KeptEdge(s, u, ranks, t.g);
    KeptEdge(s, u, ranks, t.h);
  }

  /** bdd_ite_aux */
  method IteAux(m: Manager, t: Triple) returns (R: Edge)
    requires m.Valid() && AliveT(m.Tab(), t)
    modifies m
    ensures m.Valid() && m.SameOrder(old(m.ranks), old(m.space), old(m.groups)) && m.reorder == old(m.reorder)
    ensures Delivers(old(m.Tab()), m.Tab(), R, Meaning(old(m.den), t))
    ensures Rank(m.nodes, m.ranks, R) >= old(TopRank(m.nodes, m.ranks, t))
    ensures var std := old(Standardize(m.nodes, m.ranks, t));
      std.Standard? ==> Remembers(m, OpIte(std.t.f), std.t.g, std.t.h, NegIf(R, std.neg))
    decreases TERMID - TopRank(m.nodes, m.ranks, t), 2
  {
    hide TableOk, CacheOk, Inverse, Standardize, Meaning, TopRank, Kept;
    ghost var s := m.Tab();
    CoreKeys(s, m.ranks);
    OrderOfTable(s, m.ranks);
    var std := Standardize(m.nodes, m.ranks, t);
    StandardizeOk(m.nodes, m.ranks, m.den, t);
    match std
    case Done(e) =>
      AddRef(m, e);
      KeptEdge(s, m.Tab(), m.ranks, e);
      AliveIn(m.nodes, m.refs, e);
      R := e;
    case Standard(t', neg) =>
      TopBound(m.nodes, m.ranks, t');
      R := IteStandard(m, t');
      SemCompl(m.den, R);
      ComplRank(m.nodes, m.ranks, R);
      R := NegIf(R, neg);
  }

  lemma TopBound(g: Nodes, ranks: seq<nat>, t: Triple)
    requires OrderOk(ranks)
    ensures TopRank(g, ranks, t) <= TERMID
  {
    RankBound(g, ranks, t.f);
  }

  /** The part of bdd_ite_aux that follows the normalisation: table lookup, recursion on a miss. */
  method IteStandard(m: Manager, t: Triple) returns (R: Edge)
    requires m.Valid() && AliveT(m.Tab(), t) && Proper(t) && !t.f.neg && !t.g.neg
    modifies m
    ensures m.Valid() && m.SameOrder(old(m.ranks), old(m.space), old(m.groups)) && m.reorder == old(m.reorder)
    ensures Delivers(old(m.Tab()), m.Tab(), R, Meaning(old(m.den), t))
    ensures Rank(m.nodes, m.ranks, R) >= old(TopRank(m.nodes, m.ranks, t)) && Remembers(m, OpIte(t.f), t.g, t.h, R)
    decreases TERMID - TopRank(m.nodes, m.ranks, t), 1
  {
    hide TableOk, CacheOk, Inverse, Kept, Meaning, TopRank;
    ghost var s := m.Tab();
    var hit;
    hit, R := Lookup(m, OpIte(t.f), t.g, t.h);
    KeptTriple(s, m.Tab(), m.ranks, t);
    if hit {
      CachedMeaning(m.Tab(), m.ranks, m.space, t, R);
    } else {
      ghost var s1 := m.Tab();
      R := IteExpand(m, t);
      KeptTrans(s, s1, m.Tab());
      KeptTriple(s1, m.Tab(), m.ranks, t);
      CachedMeaning(m.Tab(), m.ranks, m.space, t, R);
      Insert(m, OpIte(t.f), t.g, t.h, R);
    }
  }

  lemma CachedMeaning(s: Table, ranks: seq<nat>, space: seq<nat>, t: Triple, R: Edge)
    ensures CachedOk(OpIte(t.f), t.g, t.h, R, s, ranks, space) <==>
      && In(s.g, t.f) && In(s.g, t.g) && In(s.g, t.h) && In(s.g, R)
      && Sem(s.den, R) == Meaning(s.den, t) && Rank(s.g, ranks, R) >= TopRank(s.g, ranks, t)
  {
  }

  /** Shannon expansion of a standard triple over its top variable. */
  method IteExpand(m: Manager, t: Triple) returns (R: Edge)
    requires m.Valid() && AliveT(m.Tab(), t) && t.f.node != 0 && !t.f.neg
    modifies m
    ensures m.Valid() && m.SameOrder(old(m.ranks), old(m.space), old(m.groups)) && m.reorder == old(m.reorder)
    ensures Delivers(old(m.Tab()), m.Tab(), R, Meaning(old(m.den), t))
    ensures Rank(m.nodes, m.ranks, R) >= old(TopRank(m.nodes, m.ranks, t))
    decreases TERMID - TopRank(m.nodes, m.ranks, t), 0
  {
    hide TableOk, CacheOk, Inverse, Kept, Meaning, TopRank;
    ghost var s := m.Tab();
    var v := TopVarId(m.nodes, m.ranks, t);
    TopVar(s, m.ranks, t, v);
    var rank := m.ranks[v];
    var p := Triple(ExpPos(m.nodes, m.ranks, t.f, rank), ExpPos(m.nodes, m.ranks, t.g, rank), ExpPos(m.nodes, m.ranks, t.h, rank));
    var n := Triple(ExpNeg(m.nodes, m.ranks, t.f, rank), ExpNeg(m.nodes, m.ranks, t.g, rank), ExpNeg(m.nodes, m.ranks, t.h, rank));
    SplitOk(s, m.ranks, m.space, t, v, p, n);
    if IsLiteral(m.nodes, t.f) && VarId(m.nodes, t.f) == v
       && rank < Rank(m.nodes, m.ranks, t.g) && rank < Rank(m.nodes, m.ranks, t.h) {
      // a positive literal above both branches: they are the children already
      LiteralOk(s, m.ranks, t, v, p, n);
      R := CreateNode(m, v, t.g, t.h);
      return;
    }
    var T := IteAux(m, p);
    ghost var s1 := m.Tab();
    KeptTriple(s, s1, m.ranks, n);
    HeldAlive(s1, m.ranks, T.node);
    var E := IteAux(m, n);
    R := Combine(m, s, s1, v, T, E);
  }

  lemma LiteralOk(s: Table, ranks: seq<nat>, t: Triple, v: nat, p: Triple, n: Triple)
    requires TableOk(s, ranks) && IsLiteral(s.g, t.f) && !t.f.neg && VarId(s.g, t.f) == v < |ranks|
    requires ranks[v] < Rank(s.g, ranks, t.g) && ranks[v] < Rank(s.g, ranks, t.h)
    requires p == Triple(ExpPos(s.g, ranks, t.f, ranks[v]), ExpPos(s.g, ranks, t.g, ranks[v]), ExpPos(s.g, ranks, t.h, ranks[v]))
    requires n == Triple(ExpNeg(s.g, ranks, t.f, ranks[v]), ExpNeg(s.g, ranks, t.g, ranks[v]), ExpNeg(s.g, ranks, t.h, ranks[v]))
    ensures Meaning(s.den, p) == Sem(s.den, t.g) && Meaning(s.den, n) == Sem(s.den, t.h)
  {
    CoreKeys(s, ranks);
    ConstSem(s.den);
    assert p == Triple(ONE, t.g, t.h) && n == Triple(ZERO, t.g, t.h);
  }

  predicate IsLiteral(g: Nodes, e: Edge) {
    e.node in g && g[e.node].thn == ONE && g[e.node].els == ZERO
  }

  lemma OrderOfTable(s: Table, ranks: seq<nat>)
    requires TableOk(s, ranks)
    ensures OrderOk(ranks)
  {
  }

  /** bdd_create_node on two results that are held, which are then given up. */
  method Combine(m: Manager, ghost s: Table, ghost s1: Table, v: nat, T: Edge, E: Edge) returns (R: Edge)
    requires m.Valid() && v < |m.ranks| && TableOk(s, m.ranks) && TableOk(s1, m.ranks)
    requires exists f :: Delivers(s, s1, T, f)
    requires exists f :: Delivers(s1, m.Tab(), E, f)
    requires m.ranks[v] < Rank(s1.g, m.ranks, T) && m.ranks[v] < Rank(m.nodes, m.ranks, E)
    modifies m
    ensures m.Valid() && m.SameOrder(old(m.ranks), old(m.space), old(m.groups)) && m.reorder == old(m.reorder)
    ensures Delivers(s, m.Tab(), R, Shannon(v, Sem(s1.den, T), Sem(old(m.den), E)))
    ensures Rank(m.nodes, m.ranks, R) >= m.ranks[v]
  {
    hide TableOk, CacheOk, Inverse, Kept;
    ghost var s2 := m.Tab();
    HeldAlive(s1, m.ranks, T.node);
    HeldAlive(s2, m.ranks, E.node);
    KeptEdge(s1, s2, m.ranks, T);
    R := CreateNode(m, v, T, E);
    ghost var s3 := m.Tab();
    KeptTrans(s, s1, s2);
    KeptTrans(s, s2, s3);
    FreeTwo(m, T, E, s.ext, multiset{R.node});
    KeptAfterFree(s, s3, m.Tab(), m.ranks);
  }

  method FreeTwo(m: Manager, T: Edge, E: Edge, ghost ext: multiset<nat>, ghost more: multiset<nat>)
    requires m.Core() && m.ext == ext + multiset{T.node} + multiset{E.node} + more
    modifies m`refs, m`ext
    ensures m.Core() && m.ext == ext + more && FrozenKept(old(m.refs), m.refs)
    ensures ext <= m.ext
  {
    hide TableOk, Inverse;
    DropTwo(ext, T.node, E.node, more);
    Free(m, T);
    Free(m, E);
  }

  lemma DropTwo(ext: multiset<nat>, t: nat, e: nat, more: multiset<nat>)
    ensures var x := ext + multiset{t} + multiset{e} + more;
      && x[t] > 0 && (x - multiset{t})[e] > 0
      && x - multiset{t} - multiset{e} == ext + more
    ensures ext <= ext + more
  {
  }

  /** A constant, or BDD_VOID for anything else. */
  datatype Verdict = NotConstant | Constant(b: bool)

  function ConstOf(e: Edge): Verdict {
    if e.node == 0 then Constant(!e.neg) else NotConstant
  }

  function NegVerdict(c: Verdict, neg: bool): Verdict {
    if c.Constant? && neg then Constant(!c.b) else c
  }

  ghost function Judge(f: Fn): Verdict {
    if f == True() then Constant(true) else if f == iset{} then Constant(false) else NotConstant
  }

  lemma NotTrue()
    ensures Not(True()) == iset{} && Not(iset{}) == True() && True() != iset{}
  {
    assert {} in True();
  }

  lemma JudgeNot(f: Fn)
    ensures Judge(Not(f)) == NegVerdict(Judge(f), true)
  {
    NotTrue();
    NotNot(f);
  }

  /** By canonicity an edge denotes a constant only when it points to the terminal. */
  lemma JudgeEdge(s: Table, ranks: seq<nat>, e: Edge)
    requires TableOk(s, ranks) && In(s.g, e)
    ensures Judge(Sem(s.den, e)) == ConstOf(e)
  {
    CoreKeys(s, ranks);
    ConstSem(s.den);
    NotTrue();
    Canonical(s.g, ranks, s.den, e, ONE);
    Canonical(s.g, ranks, s.den, e, ZERO);
  }

  lemma JudgeShannon(v: nat, t: Fn, e: Fn)
    requires Indep(t, v) && Indep(e, v)
    ensures Judge(Shannon(v, t, e)) ==
      if Judge(t) == Judge(e) then Judge(t) else NotConstant
  {
    NotTrue();
    ShannonSame(v, True());
    ShannonSame(v, iset{});
    var f := Shannon(v, t, e);
    if f == True() {
      ShannonInjective(v, t, e, True(), True());
    } else if f == iset{} {
      ShannonInjective(v, t, e, iset{}, iset{});
    }
  }

  lemma MeaningIndep(s: Table, ranks: seq<nat>, t: Triple, v: nat)
    requires TableOk(s, ranks) && v < |ranks| && ranks[v] < TopRank(s.g, ranks, t)
    ensures Indep(Meaning(s.den, t), v)
  {
    SemIndep(s.g, ranks, s.den, t.f, v);
    SemIndep(s.g, ranks, s.den, t.g, v);
    SemIndep(s.g, ranks, s.den, t.h, v);
  }

  /** bdd_lookup_computed_table_no_reclaim: the entry's result, if there is one. */
  method Peek(m: Manager, op: Op, g: Edge, h: Edge) returns (hit: bool, R: Edge)
    requires m.Valid()
    ensures hit ==> CachedOk(op, g, h, R, m.Tab(), m.ranks, m.space)
  {
    hide TableOk, CacheOk, Right, Inverse;
    var i := Index(m, op, g, h);
    CacheEntryOk(m.cache, m.Tab(), m.ranks, m.space, i);
    var entry := m.cache[i];
    hit, R := false, ONE;
    if entry.Entry? && entry.op == op && entry.g == g && entry.h == h {
      hit, R := true, entry.r;
    }
  }

  /** bdd_ite_const: decides whether the ite is constant, and which constant, touching nothing but
      the computed table. */
  method IteConst(m: Manager, t: Triple) returns (c: Verdict)
    requires m.Valid() && AliveT(m.Tab(), t)
    modifies m`cache
    ensures m.Valid()
    ensures c == Judge(Meaning(m.den, t))
    decreases TERMID - TopRank(m.nodes, m.ranks, t), 1
  {
    hide TableOk, CacheOk, Inverse, Standardize, Meaning, TopRank, Judge;
    CoreKeys(m.Tab(), m.ranks);
    OrderOfTable(m.Tab(), m.ranks);
    var std := Standardize(m.nodes, m.ranks, t);
    StandardizeOk(m.nodes, m.ranks, m.den, t);
    match std
    case Done(e) =>
      JudgeEdge(m.Tab(), m.ranks, e);
      c := ConstOf(e);
    case Standard(t', neg) =>
      TopBound(m.nodes, m.ranks, t');
      JudgeNot(Meaning(m.den, t'));
      var hit, R := Peek(m, OpIte(t'.f), t'.g, t'.h);
      if hit {
        CachedMeaning(m.Tab(), m.ranks, m.space, t', R);
        JudgeEdge(m.Tab(), m.ranks, R);
        c := ConstOf(R);
      } else {
        c := IteConstExpand(m, t');
      }
      c := NegVerdict(c, neg);
  }

  method IteConstExpand(m: Manager, t: Triple) returns (c: Verdict)
    requires m.Valid() && AliveT(m.Tab(), t) && t.f.node != 0
    modifies m`cache
    ensures m.Valid()
    ensures c == Judge(Meaning(m.den, t))
    decreases TERMID - TopRank(m.nodes, m.ranks, t), 0
  {
    hide TableOk, CacheOk, Inverse, Meaning, TopRank, Judge;
    var v := TopVarId(m.nodes, m.ranks, t);
    TopVar(m.Tab(), m.ranks, t, v);
    var rank := m.ranks[v];
    var p := Triple(ExpPos(m.nodes, m.ranks, t.f, rank), ExpPos(m.nodes, m.ranks, t.g, rank), ExpPos(m.nodes, m.ranks, t.h, rank));
    var n := Triple(ExpNeg(m.nodes, m.ranks, t.f, rank), ExpNeg(m.nodes, m.ranks, t.g, rank), ExpNeg(m.nodes, m.ranks, t.h, rank));
    SplitOk(m.Tab(), m.ranks, m.space, t, v, p, n);
    MeaningIndep(m.Tab(), m.ranks, p, v);
    MeaningIndep(m.Tab(), m.ranks, n, v);
    JudgeShannon(v, Meaning(m.den, p), Meaning(m.den, n));
    var T := IteConst(m, p);
    if T == NotConstant {
      return T;
    }
    var E := IteConst(m, n);
    if T != E {
      return NotConstant;
    }
    c := T;
    var R := Edge(0, !T.b);
    JudgeEdge(m.Tab(), m.ranks, R);
    JudgeExact(m.Tab(), m.ranks, R, Meaning(m.den, t));
    TopBound2(m.Tab(), m.ranks, t);
    CachedMeaning(m.Tab(), m.ranks, m.space, t, R);
    Insert(m, OpIte(t.f), t.g, t.h, R);
  }

  lemma JudgeExact(s: Table, ranks: seq<nat>, e: Edge, f: Fn)
    requires TableOk(s, ranks) && e.node == 0 && Judge(f) == ConstOf(e)
    ensures Sem(s.den, e) == f && In(s.g, e)
  {
    CoreKeys(s, ranks);
    ConstSem(s.den);
  }

  lemma TopBound2(s: Table, ranks: seq<nat>, t: Triple)
    requires TableOk(s, ranks)
    ensures TopRank(s.g, ranks, t) <= TERMID
    ensures Rank(s.g, ranks, ONE) == TERMID && Rank(s.g, ranks, ZERO) == TERMID
  {
    TopBound(s.g, ranks, t);
  }
}
