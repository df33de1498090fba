/** What is printed for a node, as a function of the memory it is read from. */
module Printing {
  import opened Functions
  import opened Graph
  import opened State
  import opened Tables
  import opened IteOps
  import opened Expressions
  import T = Traverse

  /** Settings of the output interface. */
  datatype Options = Options(style: bool, xors: bool, impl: bool)

  /** The flags and the index in the auxiliary field of the nodes. */
  datatype Names = Names(flagged: set<nat>, root: set<nat>, inv: set<nat>, index: map<nat, nat>)

  function RefOf(nm: Names, n: nat): Ref
    requires n in nm.index
  {
    Ref(n in nm.root, nm.index[n])
  }

  /** The answer of BDD_IMPLIES_TAUT. */
  function Implied(h: Nodes, ranks: seq<nat>, F: Edge, G: Edge, fuel: nat): bool
    decreases fuel
  {
    if F == ZERO || G == ONE || F == G then true
    else if (F.node == 0 && G.node == 0) || fuel == 0 then false
    else
      var r := Min(Rank(h, ranks, F), Rank(h, ranks, G));
      && Implied(h, ranks, ExpPos(h, ranks, F, r), ExpPos(h, ranks, G, r), fuel - 1)
      && Implied(h, ranks, ExpNeg(h, ranks, F, r), ExpNeg(h, ranks, G, r), fuel - 1)
  }

  lemma ShannonOrder(v: nat, a: Fn, b: Fn, c: Fn, d: Fn)
    requires Indep(a, v) && Indep(b, v) && Indep(c, v) && Indep(d, v)
    ensures Shannon(v, a, b) <= Shannon(v, c, d) <==> a <= c && b <= d
  {
    if Shannon(v, a, b) <= Shannon(v, c, d) {
      forall x | x in a
        ensures x in c
      {
        assert Assign(x, v, true) in Shannon(v, a, b);
      }
      forall x | x in b
        ensures x in d
      {
        assert Assign(x, v, false) in Shannon(v, a, b);
      }
    }
  }

  lemma BranchIgnores(s: Table, ranks: seq<nat>, e: Edge, v: nat)
    requires TableOk(s, ranks) && v < |ranks| && ranks[v] < Rank(s.g, ranks, e)
    ensures Indep(Sem(s.den, e), v)
  {
    SemIndep(s.g, ranks, s.den, e, v);
  }

  lemma TopOf(s: Table, ranks: seq<nat>, F: Edge, G: Edge) returns (v: nat)
    requires TableOk(s, ranks) && Alive(s.g, s.refs, F) && Alive(s.g, s.refs, G) && (F.node != 0 || G.node != 0)
    ensures v < |ranks| && ranks[v] == Min(Rank(s.g, ranks, F), Rank(s.g, ranks, G)) < TERMID
  {
    if F.node in s.g { assert NodeOk(s.g, ranks, F.node); }
    if G.node in s.g { assert NodeOk(s.g, ranks, G.node); }
    v := s.g[if Rank(s.g, ranks, F) < Rank(s.g, ranks, G) then F.node else G.node].varid;
  }

  lemma ImpliedConst(s: Table, ranks: seq<nat>, F: Edge, G: Edge)
    requires TableOk(s, ranks)
    ensures F == ZERO || G == ONE || F == G ==> Sem(s.den, F) <= Sem(s.den, G)
    ensures F.node == 0 && G.node == 0 && F != ZERO && G != ONE && F != G ==> !(Sem(s.den, F) <= Sem(s.den, G))
  {
    CoreKeys(s, ranks);
    ConstSem(s.den);
    var e: Asg := {};
    assert e in True() && e !in iset{};
  }

  /** It is decided exactly. */
  lemma {:induction false} ImpliedOk(s: Table, ranks: seq<nat>, space: seq<nat>, F: Edge, G: Edge, fuel: nat)
    requires TableOk(s, ranks) && Inverse(ranks, space) && Alive(s.g, s.refs, F) && Alive(s.g, s.refs, G)
    requires fuel + Min(Rank(s.g, ranks, F), Rank(s.g, ranks, G)) >= TERMID
    ensures Implied(s.g, ranks, F, G, fuel) <==> Sem(s.den, F) <= Sem(s.den, G)
    decreases fuel
  {
    hide TableOk, Inverse, Rank, Sem, ExpPos, ExpNeg, Shannon, Indep;
    ImpliedConst(s, ranks, F, G);
    if F == ZERO || G == ONE || F == G || (F.node == 0 && G.node == 0) {
    } else {
      var v := TopOf(s, ranks, F, G);
      ExpOk(s, ranks, space, F, v);
      ExpOk(s, ranks, space, G, v);
      var Fp, Fn, Gp, Gn := ExpPos(s.g, ranks, F, ranks[v]), ExpNeg(s.g, ranks, F, ranks[v]),
                            ExpPos(s.g, ranks, G, ranks[v]), ExpNeg(s.g, ranks, G, ranks[v]);
      BranchIgnores(s, ranks, Fp, v);
      BranchIgnores(s, ranks, Fn, v);
      BranchIgnores(s, ranks, Gp, v);
      BranchIgnores(s, ranks, Gn, v);
      ShannonOrder(v, Sem(s.den, Fp), Sem(s.den, Fn), Sem(s.den, Gp), Sem(s.den, Gn));
      ImpliedOk(s, ranks, space, Fp, Gp, fuel - 1);
      ImpliedOk(s, ranks, space, Fn, Gn, fuel - 1);
    }
  }

  /** bdd_handle_aux; top says that f's own name is not to be used. */
  function Tokens(h: Nodes, ranks: seq<nat>, nm: Names, opt: Options, f: Edge, context: nat, top: bool, fuel: nat): seq<Token>
    decreases fuel, 2
  {
    if f.node == 0 then [TConst(!f.neg)]
    else if !top && f.node in nm.flagged && f.node in nm.index then [TRef(RefOf(nm, f.node), f.neg != (f.node in nm.inv))]
    else if f.node in h && fuel > 0 then NodeTokens(h, ranks, nm, opt, f, context, fuel)
    else []
  }

  function NodeTokens(h: Nodes, ranks: seq<nat>, nm: Names, opt: Options, f: Edge, context: nat, fuel: nat): seq<Token>
    requires f.node in h && fuel > 0
    decreases fuel, 1
  {
    var v, T, E := h[f.node].varid, CofPos(h, f), CofNeg(h, f);
    if T.node == 0 && E.node == 0 then [TLit(v, T == ZERO)]
    else if T == ZERO then
      Wrap(AND_OP, context, [TLit(v, true), TAnd] + Tokens(h, ranks, nm, opt, E, AND_OP, false, fuel - 1))
    else if E == ZERO then
      Wrap(AND_OP, context, [TLit(v, false), TAnd] + Tokens(h, ranks, nm, opt, T, AND_OP, false, fuel - 1))
    else if T.node == E.node && opt.xors then
      Wrap(XOR_OP, context, [TLit(v, false), TXor] + Tokens(h, ranks, nm, opt, E, XOR_OP, false, fuel - 1))
    else
      Wrap(OR_OP, context, SideTokens(h, ranks, nm, opt, T, E, v, false, fuel - 1) + [TOr]
                           + SideTokens(h, ranks, nm, opt, E, T, v, true, fuel - 1))
  }

  /** One side of a general node, without the literal where it implies the other. */
  function SideTokens(h: Nodes, ranks: seq<nat>, nm: Names, opt: Options, own: Edge, other: Edge, v: nat, negated: bool, fuel: nat): seq<Token>
    decreases fuel, 3
  {
    if other == ONE || (opt.impl && Implied(h, ranks, own, other, TERMID)) then
      Tokens(h, ranks, nm, opt, own, OR_OP, false, fuel)
    else if own != ONE then
      Wrap(AND_OP, OR_OP, [TLit(v, negated), TAnd] + Tokens(h, ranks, nm, opt, own, AND_OP, false, fuel))
    else [TLit(v, negated)]
  }

  // ---- printing looks at nothing but the nodes below

  lemma SameKids(g: Nodes, ranks: seq<nat>, h: Nodes, f: Edge)
    requires Shape(g, ranks) && In(g, f) && T.SameBelow(g, ranks, h, f)
    ensures (f.node in h <==> f.node in g) && CofPos(h, f) == CofPos(g, f) && CofNeg(h, f) == CofNeg(g, f)
    ensures Rank(h, ranks, f) == Rank(g, ranks, f)
    ensures f.node in g ==> h[f.node] == g[f.node]
    ensures In(g, CofPos(g, f)) && In(g, CofNeg(g, f))
    ensures T.SameBelow(g, ranks, h, CofPos(g, f)) && T.SameBelow(g, ranks, h, CofNeg(g, f))
  {
    T.ReachSelf(g, ranks, f);
    if f.node in g {
      T.ReachSplit(g, ranks, f);
      SameCompl(g, ranks, h, g[f.node].thn);
      SameCompl(g, ranks, h, g[f.node].els);
    }
  }

  lemma SameCompl(g: Nodes, ranks: seq<nat>, h: Nodes, e: Edge)
    requires Shape(g, ranks) && In(g, e) && T.SameBelow(g, ranks, h, e)
    ensures In(g, Compl(e)) && T.SameBelow(g, ranks, h, Compl(e))
  {
    assert T.Reach(g, ranks, Compl(e)) == T.Reach(g, ranks, e);
  }

  lemma {:induction false} ImpliedLocal(g: Nodes, ranks: seq<nat>, h: Nodes, F: Edge, G: Edge, fuel: nat)
    requires Shape(g, ranks) && In(g, F) && In(g, G) && T.SameBelow(g, ranks, h, F) && T.SameBelow(g, ranks, h, G)
    ensures Implied(h, ranks, F, G, fuel) == Implied(g, ranks, F, G, fuel)
    decreases fuel
  {
    hide Shape, T.SameBelow, Rank, CofPos, CofNeg;
    if F == ZERO || G == ONE || F == G || (F.node == 0 && G.node == 0) || fuel == 0 {
    } else {
      SameKids(g, ranks, h, F);
      SameKids(g, ranks, h, G);
      var r := Min(Rank(g, ranks, F), Rank(g, ranks, G));
      ImpliedLocal(g, ranks, h, ExpPos(g, ranks, F, r), ExpPos(g, ranks, G, r), fuel - 1);
      ImpliedLocal(g, ranks, h, ExpNeg(g, ranks, F, r), ExpNeg(g, ranks, G, r), fuel - 1);
    }
  }

  lemma {:induction false} TokensLocal(g: Nodes, ranks: seq<nat>, h: Nodes, nm: Names, opt: Options, f: Edge, context: nat, top: bool, fuel: nat)
    requires Shape(g, ranks) && In(g, f) && T.SameBelow(g, ranks, h, f)
    ensures Tokens(h, ranks, nm, opt, f, context, top, fuel) == Tokens(g, ranks, nm, opt, f, context, top, fuel)
    decreases fuel, 2
  {
    hide Shape, T.SameBelow, NodeTokens;
    SameKids(g, ranks, h, f);
    if f.node in g && fuel > 0 {
      NodeLocal(g, ranks, h, nm, opt, f, context, fuel);
    }
  }

  lemma NodeLocal(g: Nodes, ranks: seq<nat>, h: Nodes, nm: Names, opt: Options, f: Edge, context: nat, fuel: nat)
    requires Shape(g, ranks) && f.node in g && T.SameBelow(g, ranks, h, f) && fuel > 0
    ensures f.node in h && NodeTokens(h, ranks, nm, opt, f, context, fuel) == NodeTokens(g, ranks, nm, opt, f, context, fuel)
    decreases fuel, 1
  {
    hide Shape, T.SameBelow, Tokens, SideTokens, CofPos, CofNeg;
    SameKids(g, ranks, h, f);
    var v, T, E := g[f.node].varid, CofPos(g, f), CofNeg(g, f);
    TokensLocal(g, ranks, h, nm, opt, T, AND_OP, false, fuel - 1);
    TokensLocal(g, ranks, h, nm, opt, E, AND_OP, false, fuel - 1);
    TokensLocal(g, ranks, h, nm, opt, E, XOR_OP, false, fuel - 1);
    SideLocal(g, ranks, h, nm, opt, T, E, v, false, fuel - 1);
    SideLocal(g, ranks, h, nm, opt, E, T, v, true, fuel - 1);
  }

  lemma SideLocal(g: Nodes, ranks: seq<nat>, h: Nodes, nm: Names, opt: Options, own: Edge, other: Edge, v: nat, negated: bool, fuel: nat)
    requires Shape(g, ranks) && In(g, own) && In(g, other) && T.SameBelow(g, ranks, h, own) && T.SameBelow(g, ranks, h, other)
    ensures SideTokens(h, ranks, nm, opt, own, other, v, negated, fuel) == SideTokens(g, ranks, nm, opt, own, other, v, negated, fuel)
    decreases fuel, 3
  {
    hide Shape, T.SameBelow, Tokens, Implied;
    ImpliedLocal(g, ranks, h, own, other, TERMID);
    TokensLocal(g, ranks, h, nm, opt, own, OR_OP, false, fuel);
    TokensLocal(g, ranks, h, nm, opt, own, AND_OP, false, fuel);
  }

  /** A flagged node that is no root: a sub-expression of its own. */
  predicate IsSub(nm: Names, n: nat) {
    n != 0 && n in nm.flagged && n !in nm.root
  }

  /** print_action, which appends the equation of a sub-expression to the output. */
  function PrintAction(ranks: seq<nat>, nm: Names, opt: Options): T.Action<seq<Def>> {
    (h: Nodes, v: Edge, out: seq<Def>) =>
      if IsSub(nm, v.node) && v.node in nm.index then
        out + [Def(Ref(false, nm.index[v.node]), Tokens(h, ranks, nm, opt, Edge(v.node, v.node in nm.inv), NO_OP, true, TERMID))]
      else out
  }

  /** The print action cannot tell that links above are reversed. */
  lemma PrintLooksBelow(g: Nodes, ranks: seq<nat>, nm: Names, opt: Options)
    requires Shape(g, ranks)
    ensures T.LooksBelow(PrintAction(ranks, nm, opt), g, ranks)
  {
    var act := PrintAction(ranks, nm, opt);
    forall h: Nodes, v: Edge, out: seq<Def> | In(g, v) && T.SameBelow(g, ranks, h, v)
      ensures act(h, v, out) == act(g, v, out)
    {
      var e := Edge(v.node, v.node in nm.inv);
      SameCompl(g, ranks, h, v);
      assert e == v || e == Compl(v);
      TokensLocal(g, ranks, h, nm, opt, e, NO_OP, true, TERMID);
    }
  }
}
