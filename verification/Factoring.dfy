/** Factored output as a whole: what the list of equations determines, and its order. */
module Factoring {
  import opened Functions
  import opened Graph
  import opened State
  import opened ConstrainOps
  import opened Expressions
  import opened Printing
  import opened Factor
  import opened Traverse
  import opened DepthFirst
  import opened FactorVec

  /** The names in the tokens are those of nodes of ns. */
  ghost predicate NamesOf(nm: Names, g: Nodes, ns: set<nat>, ts: seq<Token>) {
    forall r {:trigger r in RefsIn(ts)} :: r in RefsIn(ts) ==> exists n {:trigger Called(nm, g, r, n)} :: n in ns && Called(nm, g, r, n)
  }

  lemma NamesMore(nm: Names, g: Nodes, ns: set<nat>, ns': set<nat>, ts: seq<Token>)
    requires NamesOf(nm, g, ns, ts) && ns <= ns'
    ensures NamesOf(nm, g, ns', ts)
  {
  }

  lemma NamesAnd(nm: Names, g: Nodes, ns: set<nat>, t: Token, u: Token, ts: seq<Token>, op: nat, context: nat)
    requires NamesOf(nm, g, ns, ts) && !t.TRef? && !u.TRef?
    ensures NamesOf(nm, g, ns, Wrap(op, context, [t, u] + ts))
  {
    RefsPair(t, u, ts);
    RefsWrap(op, context, [t, u] + ts);
    assert Wrap(op, context, [t, u] + ts) == [t, u] + ts || Wrap(op, context, [t, u] + ts) == [TOpen] + ([t, u] + ts) + [TClose];
  }

  lemma NamesOr(nm: Names, g: Nodes, ns: set<nat>, us: seq<Token>, ts: seq<Token>, op: nat, context: nat)
    requires NamesOf(nm, g, ns, us) && NamesOf(nm, g, ns, ts)
    ensures NamesOf(nm, g, ns, Wrap(op, context, us + [TOr] + ts))
  {
    NoRefs(TOr);
    RefsOver(us, [TOr]);
    RefsOver(us + [TOr], ts);
    RefsWrap(op, context, us + [TOr] + ts);
  }

  /** The children of an edge: reachable, and not the edge's own node. */
  lemma KidsReach(g: Nodes, ranks: seq<nat>, f: Edge)
    requires Shape(g, ranks) && f.node in g
    ensures In(g, CofPos(g, f)) && In(g, CofNeg(g, f))
    ensures Reach(g, ranks, CofPos(g, f)) <= Reach(g, ranks, f) - {f.node}
    ensures Reach(g, ranks, CofNeg(g, f)) <= Reach(g, ranks, f) - {f.node}
  {
    ReachSplit(g, ranks, f);
    NotBelowSelf(g, ranks, f);
    var nd := g[f.node];
    assert Reach(g, ranks, Compl(nd.thn)) == Reach(g, ranks, nd.thn);
    assert Reach(g, ranks, Compl(nd.els)) == Reach(g, ranks, nd.els);
  }

  lemma NoNames(nm: Names, g: Nodes, ns: set<nat>, t: Token)
    requires !t.TRef?
    ensures NamesOf(nm, g, ns, [t]) && NamesOf(nm, g, ns, [])
  {
    NoRefs(t);
  }

  /** What is printed for an edge uses names of nodes below it; for its own equation, properly below. */
  lemma {:induction false} TokensBelow(g: Nodes, ranks: seq<nat>, nm: Names, opt: Options, f: Edge, context: nat, top: bool, fuel: nat)
    requires Shape(g, ranks) && In(g, f)
    ensures NamesOf(nm, g, if top then Reach(g, ranks, f) - {f.node} else Reach(g, ranks, f), Tokens(g, ranks, nm, opt, f, context, top, fuel))
    decreases fuel, 2
  {
    hide Shape, NodeTokens;
    var all := Reach(g, ranks, f);
    var ns := if top then all - {f.node} else all;
    ReachSelf(g, ranks, f);
    NoNames(nm, g, ns, TConst(!f.neg));
    if f.node != 0 && !top && f.node in nm.flagged && f.node in nm.index {
      assert Called(nm, g, RefOf(nm, f.node), f.node);
    } else if f.node in g && fuel > 0 {
      NodeBelow(g, ranks, nm, opt, f, context, fuel);
      NamesMore(nm, g, all - {f.node}, ns, NodeTokens(g, ranks, nm, opt, f, context, fuel));
    }
  }

  lemma NodeBelow(g: Nodes, ranks: seq<nat>, nm: Names, opt: Options, f: Edge, context: nat, fuel: nat)
    requires Shape(g, ranks) && f.node in g && fuel > 0
    ensures NamesOf(nm, g, Reach(g, ranks, f) - {f.node}, NodeTokens(g, ranks, nm, opt, f, context, fuel))
    decreases fuel, 1
  {
    hide Shape, Tokens, SideTokens, NamesOf, CofPos, CofNeg, Reach;
    KidsReach(g, ranks, f);
    var v, T, E := g[f.node].varid, CofPos(g, f), CofNeg(g, f);
    var ns := Reach(g, ranks, f) - {f.node};
    if T.node == 0 && E.node == 0 {
      NoNames(nm, g, ns, TLit(v, T == ZERO));
    } else if T == ZERO {
      OperandBelow(g, ranks, nm, opt, E, AND_OP, ns, fuel - 1);
      NamesAnd(nm, g, ns, TLit(v, true), TAnd, Tokens(g, ranks, nm, opt, E, AND_OP, false, fuel - 1), AND_OP, context);
    } else if E == ZERO {
      OperandBelow(g, ranks, nm, opt, T, AND_OP, ns, fuel - 1);
      NamesAnd(nm, g, ns, TLit(v, false), TAnd, Tokens(g, ranks, nm, opt, T, AND_OP, false, fuel - 1), AND_OP, context);
    } else if T.node == E.node && opt.xors {
      OperandBelow(g, ranks, nm, opt, E, XOR_OP, ns, fuel - 1);
      NamesAnd(nm, g, ns, TLit(v, false), TXor, Tokens(g, ranks, nm, opt, E, XOR_OP, false, fuel - 1), XOR_OP, context);
    } else {
      SideBelow(g, ranks, nm, opt, T, E, v, false, ns, fuel - 1);
      SideBelow(g, ranks, nm, opt, E, T, v, true, ns, fuel - 1);
      NamesOr(nm, g, ns, SideTokens(g, ranks, nm, opt, T, E, v, false, fuel - 1),
              SideTokens(g, ranks, nm, opt, E, T, v, true, fuel - 1), OR_OP, context);
    }
  }

  lemma OperandBelow(g: Nodes, ranks: seq<nat>, nm: Names, opt: Options, f: Edge, context: nat, ns: set<nat>, fuel: nat)
    requires Shape(g, ranks) && In(g, f) && Reach(g, ranks, f) <= ns
    ensures NamesOf(nm, g, ns, Tokens(g, ranks, nm, opt, f, context, false, fuel))
    decreases fuel, 3
  {
    hide Shape, NamesOf, Tokens, Reach;
    TokensBelow(g, ranks, nm, opt, f, context, false, fuel);
    NamesMore(nm, g, Reach(g, ranks, f), ns, Tokens(g, ranks, nm, opt, f, context, false, fuel));
  }

  lemma SideBelow(g: Nodes, ranks: seq<nat>, nm: Names, opt: Options, own: Edge, other: Edge, v: nat, negated: bool, ns: set<nat>, fuel: nat)
    requires Shape(g, ranks) && In(g, own) && In(g, other) && Reach(g, ranks, own) <= ns
    ensures NamesOf(nm, g, ns, SideTokens(g, ranks, nm, opt, own, other, v, negated, fuel))
    decreases fuel, 4
  {
    hide Shape, NamesOf, Tokens, Reach;
    OperandBelow(g, ranks, nm, opt, own, OR_OP, ns, fuel);
    OperandBelow(g, ranks, nm, opt, own, AND_OP, ns, fuel);
    NamesAnd(nm, g, ns, TLit(v, negated), TAnd, Tokens(g, ranks, nm, opt, own, AND_OP, false, fuel), AND_OP, OR_OP);
    NoNames(nm, g, ns, TLit(v, negated));
  }

  /** The equations of the sub-expressions are numbered, and each uses earlier ones only. */
  ghost predicate Upwards(defs: seq<Def>) {
    forall i {:trigger defs[i]} :: 0 <= i < |defs| ==>
      defs[i].r == Ref(false, i) && forall r {:trigger r in RefsIn(defs[i].ts)} :: r in RefsIn(defs[i].ts) ==> !r.root && r.index < i
  }

  /** A node of the log other than the p-th but reachable from it has a smaller number. */
  lemma SmallerNumber(g: Nodes, ranks: seq<nat>, nm: Names, log: seq<Edge>, p: nat, n: nat)
    requires Shape(g, ranks) && PostOrdered(g, {}, log) && Once(log) && Indexed(nm, log, |log|) && nm.root == {} && 0 !in g
    requires p < |log| && In(g, log[p]) && n in Reach(g, ranks, log[p]) - {log[p].node} && n in g && n in nm.flagged
    ensures n in nm.index && !RefOf(nm, n).root && nm.index[n] < |SubsOf(nm, log[..p])|
  {
    hide Shape, Reach, SubsOf, PostOrdered;
    assert log[..p + 1] == log[..p] + [log[p]];
    LogJoin(log[..p], [log[p]]);
    LogOne(log[p]);
    ReachBefore(g, ranks, log, p + 1, log[p]);
    assert n in NodesOf(log[..p]);
    var q :| 0 <= q < p && log[..p][q].node == n;
    assert log[q].node == n && IsSub(nm, log[q].node);
    assert log[..p][..q] == log[..q];
    SubsPrefix(nm, log[..p], q);
  }

  /** In post-order, the sub-expressions are printed from the bottom up. */
  lemma {:induction false} SubsUpwards(g: Nodes, ranks: seq<nat>, nm: Names, opt: Options, log: seq<Edge>, k: nat)
    requires Shape(g, ranks) && PostOrdered(g, {}, log) && Once(log) && Indexed(nm, log, |log|) && nm.root == {} && 0 !in g
    requires k <= |log| && forall i {:trigger log[i]} :: 0 <= i < |log| ==> In(g, log[i])
    ensures var defs := Replay(PrintAction(ranks, nm, opt), g, [], log[..k]);
      |defs| == |SubsOf(nm, log[..k])| && Upwards(defs)
  {
    hide Shape, PostOrdered, Once, SubsOf, Upwards, Tokens, Reach, NamesOf;
    var act := PrintAction(ranks, nm, opt);
    if k == 0 {
      NothingUpwards(nm);
    } else {
      SubsUpwards(g, ranks, nm, opt, log, k - 1);
      ReplayNext(act, g, [], log, k - 1);
      SubsNext(nm, log, k - 1);
      var n := log[k - 1].node;
      var defs := Replay(act, g, [], log[..k - 1]);
      if IsSub(nm, n) {
        assert In(g, log[k - 1]);
        assert n in nm.index && nm.index[n] == |defs|;
        var e := Edge(n, n in nm.inv);
        TokensBelow(g, ranks, nm, opt, e, NO_OP, true, TERMID);
        UpwardsNext(g, ranks, nm, opt, log, k - 1, defs, Tokens(g, ranks, nm, opt, e, NO_OP, true, TERMID));
      }
    }
  }

  lemma NothingUpwards(nm: Names)
    ensures Upwards([]) && SubsOf(nm, []) == []
  {
  }

  lemma UpwardsNext(g: Nodes, ranks: seq<nat>, nm: Names, opt: Options, log: seq<Edge>, p: nat, defs: seq<Def>, ts: seq<Token>)
    requires Shape(g, ranks) && PostOrdered(g, {}, log) && Once(log) && Indexed(nm, log, |log|) && nm.root == {} && 0 !in g
    requires p < |log| && In(g, log[p]) && Upwards(defs) && |defs| == |SubsOf(nm, log[..p])|
    requires NamesOf(nm, g, Reach(g, ranks, Edge(log[p].node, log[p].node in nm.inv)) - {log[p].node}, ts)
    ensures Upwards(defs + [Def(Ref(false, |defs|), ts)])
  {
    hide Shape, PostOrdered, Once, SubsOf, Indexed;
    SameReach(g, ranks, log[p], Edge(log[p].node, log[p].node in nm.inv));
    forall r | r in RefsIn(ts)
      ensures !r.root && r.index < |defs|
    {
      var n :| n in Reach(g, ranks, log[p]) - {log[p].node} && Called(nm, g, r, n);
      SmallerNumber(g, ranks, nm, log, p, n);
    }
  }

  lemma SameReach(g: Nodes, ranks: seq<nat>, e: Edge, f: Edge)
    requires Shape(g, ranks) && In(g, e) && f.node == e.node
    ensures In(g, f) && Reach(g, ranks, f) == Reach(g, ranks, e)
  {
  }

  /** The name r has an equation before the i-th. */
  ghost predicate DefinedBefore(defs: seq<Def>, r: Ref, i: nat)
    requires i <= |defs|
  {
    exists j {:trigger defs[j]} :: 0 <= j < i && defs[j].r == r
  }

  /** No name is used before its equation. */
  ghost predicate DefinedFirst(defs: seq<Def>) {
    forall i, r {:trigger DefinedBefore(defs, r, i)} :: 0 <= i < |defs| && r in RefsIn(defs[i].ts) ==> DefinedBefore(defs, r, i)
  }

  /** The equations of the n elements in order, and those of the sub-expressions by number, the elements
      first or last. */
  ghost predicate Ordered(defs: seq<Def>, n: nat, subs: nat, elementsFirst: bool) {
    && |defs| == n + subs
    && (forall k {:trigger Ref(true, k)} :: 0 <= k < n ==> defs[if elementsFirst then k else subs + k].r == Ref(true, k))
    && (forall k {:trigger Ref(false, k)} :: 0 <= k < subs ==> defs[if elementsFirst then n + k else k].r == Ref(false, k))
  }

  lemma AllInOrder(nm: Names, g: Nodes, ranks: seq<nat>, env: Env, fs: seq<Pointer>, subs: seq<Edge>, rd: seq<Def>, sd: seq<Def>, style: bool)
    requires |rd| == |fs| && RootDefs(nm, g, ranks, env, fs, rd) && |sd| == |subs| && SubDefs(nm, g, ranks, env, subs, sd)
    ensures Ordered(if style then rd + sd else sd + rd, |fs|, |subs|, style)
  {
  }

  lemma AllFirst(rd: seq<Def>, sd: seq<Def>)
    requires Upwards(sd) && NamesEarlier(rd, |sd|)
    requires forall k {:trigger rd[k]} :: 0 <= k < |rd| ==> rd[k].r == Ref(true, k)
    ensures DefinedFirst(sd + rd)
  {
    var defs := sd + rd;
    forall i, r | 0 <= i < |defs| && r in RefsIn(defs[i].ts)
      ensures DefinedBefore(defs, r, i)
    {
      if i < |sd| {
        assert defs[i] == sd[i];
        assert defs[r.index].r == r;
      } else {
        assert defs[i] == rd[i - |sd|];
        assert defs[if r.root then |sd| + r.index else r.index].r == r;
      }
    }
  }

  lemma BottomUp(s: Table, nm: Names, ranks: seq<nat>, env: Env, nm0: Names, opt: Options, fs: seq<Pointer>, log: seq<Edge>,
                 rd: seq<Def>, sd: seq<Def>)
    requires TableOk(s, ranks) && VecIn(s.g, fs) && Shape(s.g, ranks) && VecAlive(s, fs)
    requires log == OrderVec(s.g, ranks, fs, |fs|, true) && Once(log) && NodesOf(log) == ReachAll(s.g, ranks, fs, |fs|)
    requires Indexed(nm0, log, |log|) && nm0.root == {} && 0 !in s.g
    requires sd == Replay(PrintAction(ranks, nm0, opt), s.g, [], log)
    requires |rd| == |fs| && RootDefs(nm, s.g, ranks, env, fs, rd) && NamesEarlier(rd, |sd|)
    ensures DefinedFirst(sd + rd)
  {
    hide TableOk, Shape, Once, Indexed, PostOrdered, OrderVec, ReachAll, NamesEarlier, DefOk, Upwards;
    VecIsFirst(s.g, ranks, fs, |fs|);
    LogAllAlive(s, ranks, fs, log);
    forall i | 0 <= i < |log|
      ensures In(s.g, log[i])
    {
      assert Alive(s.g, s.refs, Edge(log[i].node, false));
    }
    assert log[..|log|] == log;
    SubsUpwards(s.g, ranks, nm0, opt, log, |log|);
    AllFirst(rd, sd);
  }

  /** bdd_factor_vec: the printed equations have a solution, and every solution gives each element of
      the vector its function. In one style the elements come first; in the other they come last, and no
      name is used before its equation. */
  method BddFactorVec(m: Manager, fl: Fields, opt: Options, fs: seq<Pointer>) returns (defs: seq<Def>)
    requires m.Valid() && VecAlive(m.Tab(), fs) && fl.Val() == Names({}, {}, {}, map[])
    modifies m`cache, fl
    ensures m.Valid() && fl.Val() == Names({}, {}, {}, map[])
    ensures OneEach(defs) && (exists env :: Solves(env, defs)) && Determines(m.den, fs, defs)
    ensures exists subs {:trigger Ordered(defs, |fs|, subs, opt.style)} :: Ordered(defs, |fs|, subs, opt.style)
    ensures !opt.style ==> DefinedFirst(defs)
  {
    hide TableOk, CacheOk, Inverse, FactorVec.Named, Value, RootDefs, SubDefs, Determines, OneEach, Solves, Acyclic, Shape, Indexed;
    hide DefinedFirst, Ordered, NamesEarlier;
    ghost var g, ranks, den := m.nodes, m.ranks, m.den;
    VectorIn(m.Tab(), m.ranks, fs);
    var log := TraverseVec(m, fs, !opt.style);
    NameAll(fl, fs, log, opt.style, g);
    ghost var nm0, subs := fl.Val(), SubsOf(fl.Val(), log);
    LogAllAlive(m.Tab(), ranks, fs, log);
    var rd, sd;
    if opt.style {
      rd := HandleRoots(m, fl, opt, fs, subs);
      IndexedSame(nm0, fl.Val(), log);
      sd := PrintSubs(m, fl, opt, fs, log, subs);
      defs := rd + sd;
    } else {
      sd := PrintSubs(m, fl, opt, fs, log, subs);
      rd := HandleRoots(m, fl, opt, fs, subs);
      SubDefsMore(nm0, fl.Val(), g, ranks, Value(den, fs, subs), subs, sd);
      defs := sd + rd;
    }
    AllInOrder(fl.Val(), g, ranks, Value(den, fs, subs), fs, subs, rd, sd, opt.style);
    if !opt.style {
      BottomUp(m.Tab(), fl.Val(), ranks, Value(den, fs, subs), nm0, opt, fs, log, rd, sd);
    }
    SubsIn(m.Tab(), nm0, fs, ranks, log);
    PrintedAll(fl.Val(), g, ranks, den, fs, subs, rd, sd, defs);
    SolvedIs(fl.Val(), g, ranks, den, fs, subs, rd, sd, defs);
    fl.flagged, fl.root, fl.inv, fl.index := {}, {}, {}, map[];
  }
}
