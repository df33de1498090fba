/** Factored output of a vector of functions: every node that is used often enough gets a name, and
    the functions are printed as equations over variables and names. */
module Factor {
  import opened Functions
  import opened Graph
  import opened State
  import opened Tables
  import opened IteOps
  import opened Cubes
  import opened Expressions
  import opened Printing
  import SumOfCubes

  class Fields {
    var flagged: set<nat>      // subexpr_flag
    var root: set<nat>         // root_flag
    var inv: set<nat>          // subexpr_inv
    var index: map<nat, nat>   // subexpr_index

    function Val(): Names
      reads this
    {
      Names(flagged, root, inv, index)
    }

    constructor ()
      ensures Val() == Names({}, {}, {}, map[])
    {
      flagged, root, inv, index := {}, {}, {}, map[];
    }
  }

  /** Names stand for their nodes' functions, in the polarity they were given. */
  ghost predicate Means(env: Env, nm: Names, g: Nodes, den: Den) {
    forall n {:trigger n in nm.flagged} :: n in nm.flagged && n in g ==>
      n in nm.index && env(RefOf(nm, n)) == Sem(den, Edge(n, n in nm.inv))
  }

  /** Node n has the name r. */
  ghost predicate Called(nm: Names, g: Nodes, r: Ref, n: nat) {
    n in nm.flagged && n in g && n in nm.index && r == RefOf(nm, n)
  }

  ghost predicate CalledFrom(nm: Names, g: Nodes, ranks: seq<nat>, r: Ref, bound: nat) {
    exists n {:trigger Called(nm, g, r, n)} :: Called(nm, g, r, n) && Rank(g, ranks, Edge(n, false)) >= bound
  }

  /** The names used belong to nodes that rank no higher than bound. */
  ghost predicate RefsFrom(nm: Names, g: Nodes, ranks: seq<nat>, ts: seq<Token>, bound: nat) {
    forall r {:trigger r in RefsIn(ts)} :: r in RefsIn(ts) ==> CalledFrom(nm, g, ranks, r, bound)
  }

  lemma NoRefs(t: Token)
    requires !t.TRef?
    ensures RefsIn([t]) == {}
  {
  }

  lemma RefsPair(t: Token, u: Token, ts: seq<Token>)
    requires !t.TRef? && !u.TRef?
    ensures RefsIn([t, u] + ts) == RefsIn(ts)
  {
    NoRefs(t);
    NoRefs(u);
    assert [t, u] + ts == [t] + ([u] + ts);
    RefsOver([t], [u] + ts);
    RefsOver([u], ts);
  }

  lemma RefsWrap(op: nat, context: nat, ts: seq<Token>)
    ensures RefsIn(Wrap(op, context, ts)) == RefsIn(ts)
  {
    NoRefs(TOpen);
    NoRefs(TClose);
    RefsOver([TOpen] + ts, [TClose]);
    RefsOver([TOpen], ts);
  }

  lemma RefsLower(nm: Names, g: Nodes, ranks: seq<nat>, ts: seq<Token>, ts': seq<Token>, b: nat, b': nat)
    requires RefsFrom(nm, g, ranks, ts, b) && RefsIn(ts') <= RefsIn(ts) && b' <= b
    ensures RefsFrom(nm, g, ranks, ts', b')
  {
    forall r | r in RefsIn(ts')
      ensures CalledFrom(nm, g, ranks, r, b')
    {
      assert r in RefsIn(ts);
      assert CalledFrom(nm, g, ranks, r, b);
    }
  }

  lemma RefsOr(nm: Names, g: Nodes, ranks: seq<nat>, us: seq<Token>, ts: seq<Token>, b: nat)
    requires RefsFrom(nm, g, ranks, us, b) && RefsFrom(nm, g, ranks, ts, b)
    ensures RefsFrom(nm, g, ranks, us + [TOr] + ts, b)
  {
    NoRefs(TOr);
    RefsOver(us + [TOr], ts);
    RefsOver(us, [TOr]);
  }

  /** BDD_IMPLIES_TAUT */
  method ImpliesTaut(m: Manager, F: Edge, G: Edge) returns (b: bool)
    requires m.Valid() && Alive(m.nodes, m.refs, F) && Alive(m.nodes, m.refs, G)
    modifies m`cache
    ensures m.Valid() && (b <==> Sem(m.den, F) <= Sem(m.den, G)) && b == Implied(m.nodes, m.ranks, F, G, TERMID)
  {
    hide TableOk, CacheOk, Inverse, Implied;
    ImpliedOk(m.Tab(), m.ranks, m.space, F, G, TERMID);
    CoreKeys(m.Tab(), m.ranks);
    SumOfCubes.CoversMeans(m.den, G, F);
    var c := IteConst(m, Triple(F, G, ONE));
    b := c == Constant(true);
  }

  /** What the printing of f promises: it is read as f, and uses names of nodes from bound on. */
  ghost predicate Printed(nm: Names, g: Nodes, ranks: seq<nat>, env: Env, context: nat, ts: seq<Token>, f: Fn, bound: nat) {
    Reads(env, context, ts, f) && RefsFrom(nm, g, ranks, ts, bound)
  }

  /** bdd_handle_aux; top says that f's own name is not to be used. */
  method HandleAux(m: Manager, fl: Fields, opt: Options, f: Edge, context: nat, top: bool, ghost env: Env, ghost fuel: nat)
    returns (ts: seq<Token>)
    requires m.Valid() && Alive(m.nodes, m.refs, f) && Means(env, fl.Val(), m.nodes, m.den) && context <= AND_OP
    modifies m`cache
    ensures m.Valid()
    ensures Printed(fl.Val(), m.nodes, m.ranks, env, context, ts, Sem(m.den, f), Rank(m.nodes, m.ranks, f) + if top then 1 else 0)
    ensures fuel + Rank(m.nodes, m.ranks, f) >= TERMID ==>
      ts == Tokens(m.nodes, m.ranks, fl.Val(), opt, f, context, top, fuel)
    decreases TERMID - Rank(m.nodes, m.ranks, f), 2
  {
    hide TableOk, CacheOk, Inverse, Reads, RefsFrom, Means, NodeTokens;
    ghost var b := Rank(m.nodes, m.ranks, f) + if top then 1 else 0;
    if f.node == 0 {
      PrintConst(fl.Val(), m.Tab(), m.ranks, f, env, context, b);
      ts := [TConst(!f.neg)];
    } else if !top && f.node in fl.flagged {
      PrintName(fl.Val(), m.Tab(), m.ranks, f, env, context);
      var negated := f.neg != (f.node in fl.inv);
      ts := [TRef(Ref(f.node in fl.root, fl.index[f.node]), negated)];
    } else {
      RankBelow(m.Tab(), m.ranks, f);
      ts := HandleNode(m, fl, opt, f, context, env, if fuel > 0 then fuel else 1);
      PrintedLower(fl.Val(), m.nodes, m.ranks, env, context, ts, Sem(m.den, f), Rank(m.nodes, m.ranks, f) + 1, b);
    }
  }

  lemma PrintedLower(nm: Names, g: Nodes, ranks: seq<nat>, env: Env, context: nat, ts: seq<Token>, f: Fn, b: nat, b': nat)
    requires Printed(nm, g, ranks, env, context, ts, f, b) && b' <= b
    ensures Printed(nm, g, ranks, env, context, ts, f, b')
  {
    RefsLower(nm, g, ranks, ts, ts, b, b');
  }

  lemma PrintConst(nm: Names, s: Table, ranks: seq<nat>, f: Edge, env: Env, context: nat, b: nat)
    requires TableOk(s, ranks) && f.node == 0 && context <= AND_OP
    ensures Printed(nm, s.g, ranks, env, context, [TConst(!f.neg)], Sem(s.den, f), b)
  {
    var t := TConst(!f.neg);
    CoreKeys(s, ranks);
    ConstSem(s.den);
    OneToken(env, t, Sem(s.den, f));
    AtomAnywhere(env, context, [t], Sem(s.den, f));
    NoRefs(t);
  }

  lemma PrintName(nm: Names, s: Table, ranks: seq<nat>, f: Edge, env: Env, context: nat)
    requires TableOk(s, ranks) && Means(env, nm, s.g, s.den) && f.node in nm.flagged && f.node in s.g && context <= AND_OP
    ensures f.node in nm.index
    ensures Printed(nm, s.g, ranks, env, context, [TRef(RefOf(nm, f.node), f.neg != (f.node in nm.inv))],
                    Sem(s.den, f), Rank(s.g, ranks, f))
  {
    var n := f.node;
    assert n in nm.flagged;
    var t := TRef(RefOf(nm, n), f.neg != (n in nm.inv));
    SemCompl(s.den, Edge(n, n in nm.inv));
    OneToken(env, t, Sem(s.den, f));
    AtomAnywhere(env, context, [t], Sem(s.den, f));
    forall r | r in RefsIn([t])
      ensures CalledFrom(nm, s.g, ranks, r, Rank(s.g, ranks, f))
    {
      assert Called(nm, s.g, r, n);
      assert Rank(s.g, ranks, Edge(n, false)) == Rank(s.g, ranks, f);
    }
  }

  /** A node without name, or whose own definition is wanted. */
  method HandleNode(m: Manager, fl: Fields, opt: Options, f: Edge, context: nat, ghost env: Env, ghost fuel: nat)
    returns (ts: seq<Token>)
    requires m.Valid() && Alive(m.nodes, m.refs, f) && f.node in m.nodes && context <= AND_OP && fuel > 0
    requires Means(env, fl.Val(), m.nodes, m.den)
    modifies m`cache
    ensures m.Valid()
    ensures Printed(fl.Val(), m.nodes, m.ranks, env, context, ts, Sem(m.den, f), Rank(m.nodes, m.ranks, f) + 1)
    ensures fuel + Rank(m.nodes, m.ranks, f) >= TERMID ==> ts == NodeTokens(m.nodes, m.ranks, fl.Val(), opt, f, context, fuel)
    decreases TERMID - Rank(m.nodes, m.ranks, f), 1
  {
    hide TableOk, CacheOk, Inverse, Reads, RefsFrom, Means, Printed, Shannon, Lit, Tokens, SideTokens;
    ghost var b := Rank(m.nodes, m.ranks, f) + 1;
    var v, T, E := m.nodes[f.node].varid, CofPos(m.nodes, f), CofNeg(m.nodes, f);
    SumOfCubes.NodeCofactors(m.Tab(), m.ranks, f);
    Shapes(m.Tab(), m.ranks, v, T, E);
    ghost var nm, g, ranks := fl.Val(), m.nodes, m.ranks;
    if T.node == 0 && E.node == 0 {
      PrintLit(nm, g, ranks, env, context, v, T == ZERO, b);
      ts := [TLit(v, T == ZERO)];
    } else if T == ZERO {
      ts := HandleAux(m, fl, opt, E, AND_OP, false, env, fuel - 1);
      PrintAnd(nm, g, ranks, env, context, v, true, ts, Sem(m.den, E), Rank(g, ranks, E), b);
      ts := Wrap(AND_OP, context, [TLit(v, true), TAnd] + ts);
    } else if E == ZERO {
      ts := HandleAux(m, fl, opt, T, AND_OP, false, env, fuel - 1);
      PrintAnd(nm, g, ranks, env, context, v, false, ts, Sem(m.den, T), Rank(g, ranks, T), b);
      ts := Wrap(AND_OP, context, [TLit(v, false), TAnd] + ts);
    } else if T.node == E.node && opt.xors {
      ts := HandleAux(m, fl, opt, E, XOR_OP, false, env, fuel - 1);
      PrintXor(nm, g, ranks, env, context, v, ts, Sem(m.den, E), Rank(g, ranks, E), b);
      ts := Wrap(XOR_OP, context, [TLit(v, false), TXor] + ts);
    } else {
      ghost var L, R;
      var us;
      us, L := OrSide(m, fl, opt, T, E, v, false, env, b, fuel - 1);
      ts, R := OrSide(m, fl, opt, E, T, v, true, env, b, fuel - 1);
      OrMeans(v, Sem(m.den, T), Sem(m.den, E), L, R);
      PrintOr(nm, g, ranks, env, context, us, ts, L, R, b);
      ts := Wrap(OR_OP, context, us + [TOr] + ts);
    }
  }

  lemma PrintLit(nm: Names, g: Nodes, ranks: seq<nat>, env: Env, context: nat, v: nat, negated: bool, b: nat)
    requires context <= AND_OP
    ensures Printed(nm, g, ranks, env, context, [TLit(v, negated)], Lit(v, !negated), b)
  {
    var t := TLit(v, negated);
    OneToken(env, t, Lit(v, !negated));
    AtomAnywhere(env, context, [t], Lit(v, !negated));
    NoRefs(t);
  }

  lemma PrintAnd(nm: Names, g: Nodes, ranks: seq<nat>, env: Env, context: nat, v: nat, negated: bool, ts: seq<Token>, f: Fn, c: nat, b: nat)
    requires Printed(nm, g, ranks, env, AND_OP, ts, f, c) && b <= c && context <= AND_OP
    ensures Printed(nm, g, ranks, env, context, Wrap(AND_OP, context, [TLit(v, negated), TAnd] + ts), Lit(v, !negated) * f, b)
  {
    var t := TLit(v, negated);
    OneToken(env, t, Lit(v, !negated));
    AndTokens(env, t, Lit(v, !negated), ts, f);
    Wrapped(env, AND_OP, context, [t, TAnd] + ts, Lit(v, !negated) * f);
    RefsPair(t, TAnd, ts);
    RefsWrap(AND_OP, context, [t, TAnd] + ts);
    RefsLower(nm, g, ranks, ts, Wrap(AND_OP, context, [t, TAnd] + ts), c, b);
  }

  lemma PrintXor(nm: Names, g: Nodes, ranks: seq<nat>, env: Env, context: nat, v: nat, ts: seq<Token>, f: Fn, c: nat, b: nat)
    requires Printed(nm, g, ranks, env, XOR_OP, ts, f, c) && b <= c && context <= AND_OP
    ensures Printed(nm, g, ranks, env, context, Wrap(XOR_OP, context, [TLit(v, false), TXor] + ts), Xor(Lit(v, true), f), b)
  {
    var t := TLit(v, false);
    OneToken(env, t, Lit(v, true));
    XorTokens(env, t, Lit(v, true), ts, f);
    Wrapped(env, XOR_OP, context, [t, TXor] + ts, Xor(Lit(v, true), f));
    RefsPair(t, TXor, ts);
    RefsWrap(XOR_OP, context, [t, TXor] + ts);
    RefsLower(nm, g, ranks, ts, Wrap(XOR_OP, context, [t, TXor] + ts), c, b);
  }

  lemma PrintOr(nm: Names, g: Nodes, ranks: seq<nat>, env: Env, context: nat, us: seq<Token>, ts: seq<Token>, f: Fn, h: Fn, b: nat)
    requires Printed(nm, g, ranks, env, OR_OP, us, f, b) && Printed(nm, g, ranks, env, OR_OP, ts, h, b) && context <= AND_OP
    ensures Printed(nm, g, ranks, env, context, Wrap(OR_OP, context, us + [TOr] + ts), f + h, b)
  {
    OrTokens(env, us, f, ts, h);
    Wrapped(env, OR_OP, context, us + [TOr] + ts, f + h);
    RefsOr(nm, g, ranks, us, ts, b);
    RefsWrap(OR_OP, context, us + [TOr] + ts);
    RefsLower(nm, g, ranks, us + [TOr] + ts, Wrap(OR_OP, context, us + [TOr] + ts), b, b);
  }

  /** One side of a general node may stand alone where it implies the other. */
  ghost predicate SideOk(v: nat, b: bool, own: Fn, other: Fn, F: Fn) {
    F == Lit(v, b) * own || (F == own && own <= other)
  }

  lemma OrMeans(v: nat, t: Fn, e: Fn, L: Fn, R: Fn)
    requires SideOk(v, true, t, e, L) && SideOk(v, false, e, t, R)
    ensures L + R == Shannon(v, t, e)
  {
  }

  /** One side of the general case: with implications, without the literal; a constant 1 as the literal
      alone. */
  method OrSide(m: Manager, fl: Fields, opt: Options, own: Edge, other: Edge, v: nat, negated: bool, ghost env: Env, ghost b: nat,
                ghost fuel: nat)
    returns (ts: seq<Token>, ghost F: Fn)
    requires m.Valid() && Alive(m.nodes, m.refs, own) && Alive(m.nodes, m.refs, other)
    requires Means(env, fl.Val(), m.nodes, m.den) && b <= Rank(m.nodes, m.ranks, own)
    modifies m`cache
    ensures m.Valid() && Printed(fl.Val(), m.nodes, m.ranks, env, OR_OP, ts, F, b)
    ensures SideOk(v, !negated, Sem(m.den, own), Sem(m.den, other), F)
    ensures fuel + Rank(m.nodes, m.ranks, own) >= TERMID ==>
      ts == SideTokens(m.nodes, m.ranks, fl.Val(), opt, own, other, v, negated, fuel)
    decreases TERMID - Rank(m.nodes, m.ranks, own), 3
  {
    hide TableOk, CacheOk, Inverse, Reads, RefsFrom, Means, Printed, Shannon, Lit, Tokens, Implied;
    ghost var nm, g, ranks := fl.Val(), m.nodes, m.ranks;
    SideConst(m.Tab(), m.ranks, own, other, v, negated);
    var alone := other == ONE;
    if !alone && opt.impl {
      alone := ImpliesTaut(m, own, other);
    }
    if alone {
      F := Sem(m.den, own);
      ts := HandleAux(m, fl, opt, own, OR_OP, false, env, fuel);
      PrintedLower(nm, g, ranks, env, OR_OP, ts, F, Rank(g, ranks, own), b);
    } else if own != ONE {
      F := Lit(v, !negated) * Sem(m.den, own);
      ts := HandleAux(m, fl, opt, own, AND_OP, false, env, fuel);
      PrintAnd(nm, g, ranks, env, OR_OP, v, negated, ts, Sem(m.den, own), Rank(g, ranks, own), b);
      ts := Wrap(AND_OP, OR_OP, [TLit(v, negated), TAnd] + ts);
    } else {
      F := Lit(v, !negated);
      PrintLit(nm, g, ranks, env, OR_OP, v, negated, b);
      ts := [TLit(v, negated)];
    }
  }

  lemma SideConst(s: Table, ranks: seq<nat>, own: Edge, other: Edge, v: nat, negated: bool)
    requires TableOk(s, ranks)
    ensures other == ONE ==> Sem(s.den, own) <= Sem(s.den, other)
    ensures own == ONE ==> Lit(v, !negated) == Lit(v, !negated) * Sem(s.den, own)
  {
    CoreKeys(s, ranks);
    ConstSem(s.den);
  }

  /** The function of a node in the cases that are told apart. */
  lemma Shapes(s: Table, ranks: seq<nat>, v: nat, T: Edge, E: Edge)
    requires TableOk(s, ranks) && T != E
    ensures var f := Shannon(v, Sem(s.den, T), Sem(s.den, E));
      && (T.node == 0 && E.node == 0 ==> f == Lit(v, T != ZERO))
      && (T == ZERO ==> f == Lit(v, false) * Sem(s.den, E))
      && (E == ZERO ==> f == Lit(v, true) * Sem(s.den, T))
      && (T.node == E.node ==> f == Xor(Lit(v, true), Sem(s.den, E)))
  {
    CoreKeys(s, ranks);
    ConstSem(s.den);
    if T.node == E.node {
      assert T == Compl(E);
      SemCompl(s.den, E);
    }
  }
}
