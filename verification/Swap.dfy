/** Exchanging two adjacent levels in place. */
module Swap {
  import opened Functions
  import opened Graph
  import opened RefCount
  import opened State
  import opened Levels
  import opened Tables

  /** The table in the middle of a swap: every node counts as a parent, dead or not. */
  ghost predicate SwapOk(t: Table, s: Mid) {
    && s.g == t.g && s.den == t.den && MidOk(s)
    && t.refs.Keys == t.g.Keys + {0} + (if s.hole == 0 then {} else {s.hole})
    && RefsOk(t.g, t.refs, t.ext, multiset{}, t.g.Keys)
  }

  /** The functions of nodes on the lower level: they start at w and ignore v. */
  ghost predicate LowerFn(f: Fn, ranks: seq<nat>, v: nat, w: nat) {
    && Indep(f, v) && !Indep(f, w)
    && (forall x {:trigger ranks[x]} :: 0 <= x < |ranks| && ranks[x] < VarRank(ranks, w) ==> Indep(f, x))
  }

  /** A node of b that must survive: held, frozen, or not on the lower level. */
  ghost predicate Must(b: Table, s: Mid, n: nat) {
    n in b.den && (b.ext[n] > 0 || n in Frozen(b.refs) || !LowerFn(b.den[n], s.ranks, s.v, s.w))
  }

  /** Since b, no node that must survive has changed its function, and nothing held was given up. */
  ghost predicate Stable(b: Table, t: Table, s: Mid) {
    && b.ext <= t.ext && FrozenKept(b.refs, t.refs)
    && (forall n {:trigger Must(b, s, n)} :: Must(b, s, n) ==> n in t.den && t.den[n] == b.den[n])
  }

  ghost predicate SameSetting(s: Mid, t: Mid) {
    s.ranks == t.ranks && s.v == t.v && s.w == t.w
  }

  lemma DecrStep(t: Table, s: Mid, b: Table, n: nat)
    requires SwapOk(t, s) && Stable(b, t, s) && b.ext + multiset{n} <= t.ext
    ensures 0 < Count(t.refs, n) <= MAXREF && n in t.refs
    ensures var u := t.(refs := t.refs[n := Decr(Count(t.refs, n))], ext := t.ext - multiset{n});
      SwapOk(u, s) && Stable(b, u, s)
  {
    assert t.ext[n] >= multiset{n}[n];
    DecrOk(t.g, t.refs, t.ext, t.g.Keys, n);
    var refs' := t.refs[n := Decr(Count(t.refs, n))];
    assert Frozen(t.refs) <= Frozen(refs');
  }

  /** Since t at most k nodes were made, each adding at most two references to any node. */
  ghost predicate Grows(t: Table, u: Table, k: nat) {
    && |u.g| <= |t.g| + k
    && (forall n {:trigger Count(u.refs, n)} :: Count(u.refs, n) <= Count(t.refs, n) + 2 * k)
  }

  lemma GrowsTrans(t: Table, u: Table, w: Table, j: nat, k: nat)
    requires Grows(t, u, j) && Grows(u, w, k)
    ensures Grows(t, w, j + k)
  {
    forall n
      ensures Count(w.refs, n) <= Count(t.refs, n) + 2 * (j + k)
    {
      assert Count(w.refs, n) <= Count(u.refs, n) + 2 * k;
    }
  }

  lemma GrowsMore(t: Table, u: Table, j: nat, k: nat)
    requires Grows(t, u, j) && j <= k
    ensures Grows(t, u, k)
  {
  }

  lemma GrowsRefl(t: Table)
    ensures Grows(t, t, 0)
  {
  }

  /** A count that goes up by one, or down, in the same graph. */
  lemma GrowsCount(t: Table, u: Table, n: nat, c: nat)
    requires u.g == t.g && u.refs == t.refs[n := c]
    ensures c <= Count(t.refs, n) ==> Grows(t, u, 0)
    ensures c <= Count(t.refs, n) + 1 ==> Grows(t, u, 1)
  {
  }

  lemma GrowsDrop(t: Table, u: Table, d: nat)
    requires d in t.g && u.g == t.g - {d} && u.refs == Dropped(t.refs, t.g[d]) - {d}
    ensures Grows(t, u, 0)
  {
    FewerNodes(t.g, d);
  }

  lemma FewerNodes(g: Nodes, d: nat)
    requires d in g
    ensures |g - {d}| + 1 == |g|
  {
    assert (g - {d}).Keys == g.Keys - {d};
    assert |g| == |g.Keys| && |g - {d}| == |(g - {d}).Keys|;
  }

  lemma MoreNodes(g: Nodes, n: nat, nd: Node)
    ensures |g[n := nd]| <= |g| + 1
  {
    if n in g {
      assert g[n := nd].Keys == g.Keys;
    } else {
      assert g[n := nd].Keys == g.Keys + {n};
    }
    assert |g| == |g.Keys| && |g[n := nd]| == |g[n := nd].Keys|;
  }

  lemma GrowsMade(t: Table, n: nat, nd: Node)
    requires n !in t.refs
    ensures Grows(t, Made(t, n, nd), 1)
  {
    MoreNodes(t.g, n, nd);
  }

  /** A node taken out and put back adds nothing. */
  lemma GrowsRewrite(t: Table, u: Table, f: nat, nd: Node, k: nat)
    requires f in t.g && Grows(Unlinked(t, f), u, k)
    ensures Grows(t, Relinked(u, f, nd), k)
  {
    FewerNodes(t.g, f);
    MoreNodes(u.g, f, nd);
  }

  /** BDD_DECR_REF */
  method DecrRef(m: Manager, e: Edge, ghost s: Mid, ghost b: Table)
    requires SwapOk(m.Tab(), s) && Stable(b, m.Tab(), s) && b.ext + multiset{e.node} <= m.ext
    modifies m`refs, m`ext
    ensures SwapOk(m.Tab(), s) && Stable(b, m.Tab(), s)
    ensures m.ext == old(m.ext) - multiset{e.node}
    ensures DeadSet(m.refs) <= old(DeadSet(m.refs)) + {e.node} && Grows(old(m.Tab()), m.Tab(), 0)
  {
    hide SwapOk, Stable, Grows;
    ghost var t := m.Tab();
    DecrStep(t, s, b, e.node);
    m.refs := m.refs[e.node := Decr(Count(m.refs, e.node))];
    m.ext := m.ext - multiset{e.node};
    GrowsCount(t, m.Tab(), e.node, Decr(Count(t.refs, e.node)));
  }

  lemma DeadUnreferenced(t: Table, s: Mid, d: nat)
    requires SwapOk(t, s) && d in t.g && Count(t.refs, d) == 0
    ensures Unreferenced(s, d) && t.ext[d] == 0
  {
    assert Balanced(t.g, t.refs, t.ext, multiset{}, t.g.Keys, d);
    forall k | k in s.g
      ensures s.g[k].thn.node != d && s.g[k].els.node != d
    {
      ParentCounts(t.g, t.g.Keys, k, d);
    }
  }

  /** A dead lower node is not one that must survive. */
  lemma LowerNotMust(t: Table, s: Mid, b: Table, d: nat)
    requires SwapOk(t, s) && Stable(b, t, s) && d in t.g && Count(t.refs, d) == 0
    requires TodoChild(s, Edge(d, false)) && s.g[d].varid == s.w
    ensures !Must(b, s, d)
  {
    DeadUnreferenced(t, s, d);
    TodoEdgeIndep(s, Edge(d, false));
    MidDepends(s, d);
    forall x | 0 <= x < |s.ranks| && s.ranks[x] < s.ranks[s.w]
      ensures Indep(s.den[d], x)
    {
      MidIndep(s, Edge(d, false), x);
    }
    assert d !in Frozen(t.refs);
  }

  ghost function Dropped(refs: Refs, nd: Node): Refs {
    var r := refs[nd.thn.node := Decr(Count(refs, nd.thn.node))];
    r[nd.els.node := Decr(Count(r, nd.els.node))]
  }

  /** Dropping a dead node's own references and then the node balances. */
  lemma DropRefsOk(t: Table, s: Mid, d: nat)
    requires SwapOk(t, s) && d in t.g && Count(t.refs, d) == 0
    ensures var r := Dropped(t.refs, t.g[d]);
      && r.Keys == t.refs.Keys && Count(r, d) == 0
      && RefsOk(t.g - {d}, r - {d}, t.ext, multiset{}, t.g.Keys - {d})
  {
    var nd := t.g[d];
    var r1 := t.refs[nd.thn.node := Decr(Count(t.refs, nd.thn.node))];
    var r2 := Dropped(t.refs, nd);
    OpenOk(t.g, t.refs, t.ext, multiset{}, t.g.Keys, d);
    KidsCancel(t.ext, nd);
    DecrOk(t.g, t.refs, t.ext + Kids(nd), t.g.Keys - {d}, nd.thn.node);
    DecrOk(t.g, r1, t.ext + Kids(nd) - multiset{nd.thn.node}, t.g.Keys - {d}, nd.els.node);
    DeadUnreferenced(t, s, d);
    assert nd.thn.node != d && nd.els.node != d;
    RegraphOk(t.g, t.g - {d}, r2, r2 - {d}, t.ext, multiset{}, t.g.Keys - {d});
  }

  lemma GcStep(t: Table, s: Mid, b: Table, d: nat)
    requires SwapOk(t, s) && Stable(b, t, s) && d in t.g && Count(t.refs, d) == 0
    requires TodoChild(s, Edge(d, false)) && s.g[d].varid == s.w
    ensures var u := Table(t.g - {d}, Dropped(t.refs, t.g[d]) - {d}, t.den - {d}, t.ext);
      SwapOk(u, Without(s, d)) && Stable(b, u, s)
  {
    var r := Dropped(t.refs, t.g[d]);
    DropRefsOk(t, s, d);
    DeadUnreferenced(t, s, d);
    MidRemove(s, d);
    LowerNotMust(t, s, b, d);
    assert (t.g - {d}).Keys == t.g.Keys - {d};
    assert Frozen(t.refs) <= Frozen(r - {d});
  }

  ghost function KidSet(nd: Node): set<nat> {
    {nd.thn.node, nd.els.node}
  }

  /** bdd_local_gc: unlink one dead node. */
  method LocalGc(m: Manager, d: nat, ghost s: Mid, ghost b: Table)
    requires SwapOk(m.Tab(), s) && Stable(b, m.Tab(), s)
    requires d in m.nodes && Count(m.refs, d) == 0
    requires d in s.g && s.g[d].varid == s.w && TodoChild(s, Edge(d, false))
    modifies m`nodes, m`refs, m`den
    ensures SwapOk(m.Tab(), Without(s, d)) && Stable(b, m.Tab(), s)
    ensures DeadSet(m.refs) <= old(DeadSet(m.refs) - {d} + KidSet(m.nodes[d])) && Grows(old(m.Tab()), m.Tab(), 0)
  {
    hide SwapOk, Stable, TodoChild, Grows;
    var nd := m.nodes[d];
    ghost var t := m.Tab();
    GcStep(m.Tab(), s, b, d);
    m.refs := m.refs[nd.thn.node := Decr(Count(m.refs, nd.thn.node))];
    m.refs := m.refs[nd.els.node := Decr(Count(m.refs, nd.els.node))];
    m.refs := m.refs - {d};
    m.nodes := m.nodes - {d};
    m.den := m.den - {d};
    GrowsDrop(t, m.Tab(), d);
  }

  /** A node found in the table gains a reference. */
  lemma FoundStep(t: Table, s: Mid, b: Table, n: nat)
    requires SwapOk(t, s) && Stable(b, t, s) && n in t.refs
    ensures var u := t.(refs := t.refs[n := Incr(Count(t.refs, n))], ext := t.ext + multiset{n});
      SwapOk(u, s) && Stable(b, u, s) && Count(u.refs, n) > 0
  {
    IncrOk(t.g, t.refs, t.ext, multiset{}, t.g.Keys, n);
    assert Frozen(t.refs) <= Frozen(t.refs[n := Incr(Count(t.refs, n))]);
  }

  ghost function Made(t: Table, n: nat, nd: Node): Table {
    var r0 := t.refs[nd.thn.node := Incr(Count(t.refs, nd.thn.node))];
    var r1 := r0[nd.els.node := Incr(Count(r0, nd.els.node))];
    Table(t.g[n := nd], r1[n := 1], t.den[n := NodeFn(t.den, nd)], t.ext + multiset{n})
  }

  lemma MakeRefsOk(t: Table, s: Mid, n: nat, nd: Node)
    requires SwapOk(t, s) && NewUpper(s, n, nd) && n !in t.refs
    ensures var u := Made(t, n, nd); RefsOk(u.g, u.refs, u.ext, multiset{}, u.g.Keys)
  {
    var u := Made(t, n, nd);
    var ks := t.g.Keys;
    var r0 := t.refs[nd.thn.node := Incr(Count(t.refs, nd.thn.node))];
    var r1 := r0[nd.els.node := Incr(Count(r0, nd.els.node))];
    IncrOk(t.g, t.refs, t.ext, multiset{}, ks, nd.thn.node);
    IncrOk(t.g, r0, t.ext + multiset{nd.thn.node}, multiset{}, ks, nd.els.node);
    var x := t.ext + multiset{nd.thn.node} + multiset{nd.els.node};
    assert nd.thn.node != n && nd.els.node != n;
    IncrOk(t.g, r1, x, multiset{}, ks, n);
    RegraphOk(t.g, u.g, u.refs, u.refs, x + multiset{n}, multiset{}, ks);
    assert x + multiset{n} - Kids(nd) == u.ext;
    CloseOk(u.g, u.refs, x + multiset{n}, multiset{}, ks, n);
    assert u.g.Keys == ks + {n};
  }

  lemma MakeStep(t: Table, s: Mid, b: Table, n: nat, nd: Node)
    requires SwapOk(t, s) && Stable(b, t, s) && NewUpper(s, n, nd) && n !in t.refs
    ensures var u := Made(t, n, nd); SwapOk(u, WithNew(s, n, nd)) && Stable(b, u, s)
  {
    var u := Made(t, n, nd);
    MakeRefsOk(t, s, n, nd);
    MidNew(s, n, nd);
    assert u.g.Keys == t.g.Keys + {n};
    assert Frozen(t.refs) <= Frozen(u.refs);
    assert s.hole in s.den || s.hole == 0;
  }

  /** Nodes and functions known before are still there. */
  ghost predicate Extends(s: Mid, t: Mid) {
    && SameSetting(s, t) && s.todo == t.todo && s.hole == t.hole
    && (forall k {:trigger k in s.g} :: k in s.g ==> k in t.g && t.g[k] == s.g[k])
    && (forall k {:trigger k in s.den} :: k in s.den ==> k in t.den && t.den[k] == s.den[k])
  }

  /** Nodes, the one being rewritten included, that nothing refers to. */
  ghost function DeadSet(refs: Refs): set<nat> {
    set n | n in refs && n != 0 && refs[n] == 0
  }

  ghost predicate CountsGrow(r: Refs, r': Refs) {
    forall n {:trigger Count(r', n)} {:trigger Count(r, n)} :: Count(r, n) <= Count(r', n)
  }

  lemma ExtendsEdge(s: Mid, t: Mid, e: Edge)
    requires MidOk(s) && MidOk(t) && Extends(s, t) && Known(s, e)
    ensures Known(t, e) && Level(t, e) == Level(s, e) && Sem(t.den, e) == Sem(s.den, e)
  {
    if e.node == 0 {
      assert 0 !in s.g && 0 !in t.g;
    } else if e.node == s.hole {
      assert s.hole !in t.g;
    }
  }

  lemma BelowFacts(t: Table, s: Mid, e: Edge)
    requires SwapOk(t, s) && Below(s, e)
    ensures e.node in t.refs && (e.node == 0 || e.node in s.g) && e.node !in s.todo
    ensures Below(s, Compl(e)) && Below(s, Regular(e)) && Known(s, e)
  {
  }

  lemma FreshRef(refs: Refs)
    ensures exists n: nat :: n !in refs
  {
    var n := MaxKey(refs.Keys);
    assert n + 1 !in refs;
  }

  lemma MadeFacts(t: Table, s: Mid, n: nat, nd: Node)
    requires SwapOk(t, s) && NewUpper(s, n, nd) && n !in t.refs
    ensures Extends(s, WithNew(s, n, nd))
    ensures CountsGrow(t.refs, Made(t, n, nd).refs) && Count(Made(t, n, nd).refs, n) > 0
    ensures DeadSet(Made(t, n, nd).refs) <= DeadSet(t.refs)
  {
  }

  lemma FoundFacts(t: Table, s: Mid, n: nat)
    requires MidOk(s)
    ensures Extends(s, s)
    ensures CountsGrow(t.refs, t.refs[n := Incr(Count(t.refs, n))])
    ensures DeadSet(t.refs[n := Incr(Count(t.refs, n))]) <= DeadSet(t.refs)
  {
  }

  method Make1(m: Manager, nd: Node, ghost s: Mid, ghost b: Table) returns (n: nat, ghost s': Mid)
    requires SwapOk(m.Tab(), s) && Stable(b, m.Tab(), s)
    requires nd.varid == s.v && !nd.thn.neg && nd.thn != nd.els && Below(s, nd.thn) && Below(s, nd.els)
    requires nd !in m.nodes.Values
    modifies m`nodes, m`refs, m`den, m`ext
    ensures SwapOk(m.Tab(), s') && Stable(b, m.Tab(), s) && Extends(s, s')
    ensures m.ext == old(m.ext) + multiset{n}
    ensures n in s'.g && s'.g[n] == nd
    ensures CountsGrow(old(m.refs), m.refs) && Count(m.refs, n) > 0
    ensures DeadSet(m.refs) <= old(DeadSet(m.refs)) && Grows(old(m.Tab()), m.Tab(), 1)
  {
    hide SwapOk, Stable, Below, Extends, CountsGrow, DeadSet, Grows;
    ghost var t := m.Tab();
    FreshRef(m.refs);
    n :| n !in m.refs;
    NewUpperOk(t, s, n, nd);
    MakeStep(t, s, b, n, nd);
    MadeFacts(t, s, n, nd);
    s' := WithNew(s, n, nd);
    MadeIn(t, s, n, nd);
    GrowsMade(t, n, nd);
    m.nodes := m.nodes[n := nd];
    m.refs := m.refs[nd.thn.node := Incr(Count(m.refs, nd.thn.node))];
    m.refs := m.refs[nd.els.node := Incr(Count(m.refs, nd.els.node))];
    m.refs := m.refs[n := 1];
    m.den := m.den[n := NodeFn(m.den, nd)];
    m.ext := m.ext + multiset{n};
  }

  lemma MadeIn(t: Table, s: Mid, n: nat, nd: Node)
    requires SwapOk(t, s)
    ensures n in WithNew(s, n, nd).g && WithNew(s, n, nd).g[n] == nd
  {
  }

  /** The lookup or allocation of bdd_create_node_1, for a positive THEN edge. */
  method FindOrAdd1(m: Manager, nd: Node, ghost s: Mid, ghost b: Table) returns (n: nat, ghost s': Mid)
    requires SwapOk(m.Tab(), s) && Stable(b, m.Tab(), s)
    requires nd.varid == s.v && !nd.thn.neg && nd.thn != nd.els && Below(s, nd.thn) && Below(s, nd.els)
    modifies m`nodes, m`refs, m`den, m`ext
    ensures SwapOk(m.Tab(), s') && Stable(b, m.Tab(), s) && Extends(s, s')
    ensures m.ext == old(m.ext) + multiset{n}
    ensures n in s'.g && s'.g[n] == nd
    ensures CountsGrow(old(m.refs), m.refs) && Count(m.refs, n) > 0
    ensures DeadSet(m.refs) <= old(DeadSet(m.refs)) && Grows(old(m.Tab()), m.Tab(), 1)
  {
    hide SwapOk, Stable, Below, Extends, CountsGrow, DeadSet, Grows;
    ghost var t := m.Tab();
    SwapFacts(t, s);
    if k :| k in m.nodes && m.nodes[k] == nd {
      n, s' := k, s;
      FoundStep(t, s, b, n);
      FoundFacts(t, s, n);
      m.refs := m.refs[n := Incr(Count(m.refs, n))];
      m.ext := m.ext + multiset{n};
      GrowsCount(t, m.Tab(), n, Incr(Count(t.refs, n)));
    } else {
      NotInValues(m.nodes, nd);
      n, s' := Make1(m, nd, s, b);
    }
  }

  lemma SwapFacts(t: Table, s: Mid)
    requires SwapOk(t, s)
    ensures MidOk(s) && s.g == t.g && s.den == t.den && t.g.Keys <= t.refs.Keys && 0 in t.refs
  {
  }

  lemma NewUpperOk(t: Table, s: Mid, n: nat, nd: Node)
    requires SwapOk(t, s) && n !in t.refs && nd !in t.g.Values
    requires nd.varid == s.v && !nd.thn.neg && nd.thn != nd.els && Below(s, nd.thn) && Below(s, nd.els)
    ensures NewUpper(s, n, nd)
  {
  }

  /** What making a node during the swap yields. */
  ghost predicate Yields(s: Mid, s': Mid, R: Edge, T: Edge, E: Edge) {
    && Extends(s, s')
    && Known(s', R) && R.node !in s'.todo && (R.node == 0 || R.node != s'.hole) && R.neg == T.neg
    && Level(s', R) >= VarRank(s'.ranks, s'.v)
    && Sem(s'.den, R) == Shannon(s.v, Sem(s.den, T), Sem(s.den, E))
  }

  lemma YieldsSame(t: Table, s: Mid, T: Edge)
    requires SwapOk(t, s) && Below(s, T)
    ensures Yields(s, s, T, T, T)
  {
    BelowFacts(t, s, T);
    ShannonSame(s.v, Sem(s.den, T));
  }

  lemma YieldsNode(s: Mid, s': Mid, n: nat, T: Edge, E: Edge)
    requires MidOk(s) && MidOk(s') && Extends(s, s') && Below(s, T) && Below(s, E)
    requires n in s'.g && s'.g[n] == Node(s.v, NegIf(T, T.neg), NegIf(E, T.neg))
    ensures Yields(s, s', Edge(n, T.neg), T, E)
  {
    assert MidNode(s', n);
    ExtendsEdge(s, s', NegIf(T, T.neg));
    ExtendsEdge(s, s', NegIf(E, T.neg));
    NegShannon(s.den, s.v, T, E);
    ExtendsEdge(s, s', s'.g[n].thn);
    ExtendsEdge(s, s', s'.g[n].els);
    BelowNotTodo(s', n);
  }

  /** A node whose children are below both levels is not one to rewrite. */
  lemma BelowNotTodo(s: Mid, n: nat)
    requires MidOk(s) && n in s.g && Below(s, s.g[n].thn) && Below(s, s.g[n].els)
    ensures n !in s.todo && n != s.hole && n != 0
  {
    assert MidNode(s, n);
  }

  /** bdd_create_node_1: the node for the upper variable, made on the level it moves to. */
  method CreateNode1(m: Manager, v: nat, T: Edge, E: Edge, ghost s: Mid, ghost b: Table)
    returns (R: Edge, ghost s': Mid)
    requires SwapOk(m.Tab(), s) && Stable(b, m.Tab(), s) && v == s.v
    requires Below(s, T) && Below(s, E)
    modifies m`nodes, m`refs, m`den, m`ext
    ensures SwapOk(m.Tab(), s') && Stable(b, m.Tab(), s') && Yields(s, s', R, T, E)
    ensures m.ext == old(m.ext) + multiset{R.node}
    ensures CountsGrow(old(m.refs), m.refs) && Count(m.refs, R.node) > 0
    ensures DeadSet(m.refs) <= old(DeadSet(m.refs))
    ensures Count(m.refs, T.node) > 0 && Count(m.refs, E.node) > 0
    ensures Grows(old(m.Tab()), m.Tab(), 1)
  {
    hide SwapOk, Stable, Below, Yields, CountsGrow, Extends, DeadSet, Grows;
    ghost var t := m.Tab();
    BelowFacts(m.Tab(), s, T);
    BelowFacts(m.Tab(), s, E);
    if T == E {
      FoundStep(m.Tab(), s, b, T.node);
      FoundFacts(m.Tab(), s, T.node);
      YieldsSame(m.Tab(), s, T);
      SwapFacts(m.Tab(), s);
      m.refs := m.refs[T.node := Incr(Count(m.refs, T.node))];
      m.ext := m.ext + multiset{T.node};
      R, s' := T, s;
      GrowsCount(t, m.Tab(), T.node, Incr(Count(t.refs, T.node)));
    } else {
      SwapFacts(m.Tab(), s);
      var n;
      n, s' := FindOrAdd1(m, Node(v, NegIf(T, T.neg), NegIf(E, T.neg)), s, b);
      SwapFacts(m.Tab(), s');
      YieldsNode(s, s', n, T, E);
      ChildrenCounted(m.Tab(), s', n);
      ExtendsSetting(s, s');
      StableSetting(b, m.Tab(), s, s');
      R := Edge(n, T.neg);
    }
  }

  lemma ExtendsSetting(s: Mid, s': Mid)
    requires Extends(s, s')
    ensures SameSetting(s, s') && s.todo == s'.todo && s.hole == s'.hole
  {
  }

  lemma StableSetting(b: Table, t: Table, s: Mid, s': Mid)
    requires Stable(b, t, s) && SameSetting(s, s')
    ensures Stable(b, t, s')
  {
    forall n | Must(b, s', n)
      ensures n in t.den && t.den[n] == b.den[n]
    {
      assert Must(b, s, n);
    }
  }

  lemma ChildrenCounted(t: Table, s: Mid, n: nat)
    requires SwapOk(t, s) && n in s.g
    ensures Count(t.refs, s.g[n].thn.node) > 0 && Count(t.refs, s.g[n].els.node) > 0
  {
    ChildCounted(t.g, t.refs, t.ext, t.g.Keys, n);
  }

  lemma TakeOne(x: multiset<nat>, a: nat, c: nat)
    ensures x + multiset{a, c} - multiset{a} == x + multiset{c}
    ensures x + multiset{a} <= x + multiset{a, c}
  {
  }

  lemma TakeLast(x: multiset<nat>, a: nat)
    ensures x + multiset{a} - multiset{a} == x
  {
  }

  lemma TwoRefs(x: multiset<nat>, nd: Node)
    ensures x + Kids(nd) - multiset{nd.thn.node} == x + multiset{nd.els.node}
    ensures x + Kids(nd) - multiset{nd.els.node} == x + multiset{nd.thn.node}
    ensures x + multiset{nd.thn.node} <= x + Kids(nd) && x + multiset{nd.els.node} <= x + Kids(nd)
  {
    TakeOne(x, nd.thn.node, nd.els.node);
    TakeOne(x, nd.els.node, nd.thn.node);
    assert multiset{nd.thn.node, nd.els.node} == multiset{nd.els.node, nd.thn.node};
  }

  /** An unprocessed node's child on the lower level, expanded over the lower variable. */
  lemma LowerChild(s: Mid, e: Edge)
    requires MidOk(s) && TodoChild(s, e) && OnLower(s, e)
    ensures Below(s, CofPos(s.g, e)) && Below(s, CofNeg(s.g, e))
    ensures Sem(s.den, e) == Shannon(s.w, Sem(s.den, CofPos(s.g, e)), Sem(s.den, CofNeg(s.g, e)))
    ensures CofPos(s.g, e).neg == e.neg
  {
    assert MidNode(s, e.node);
    var nd := s.g[e.node];
    if e.neg {
      SemCompl(s.den, nd.thn);
      SemCompl(s.den, nd.els);
      NotShannon(s.w, Sem(s.den, nd.thn), Sem(s.den, nd.els));
    }
  }

  /** What is below both levels is untouched when a lower node is removed. */
  lemma BelowStays(s: Mid, d: nat, e: Edge)
    requires MidOk(s) && d in s.g && s.g[d].varid == s.w && Below(s, e)
    ensures Below(Without(s, d), e) && Sem(Without(s, d).den, e) == Sem(s.den, e)
  {
  }

  /** Every node that is not on the lower level keeps its variable and its links. */
  ghost predicate UpperKept(g: Nodes, g': Nodes, w: nat) {
    forall n {:trigger n in g} {:trigger n in g'} :: n in g && g[n].varid != w ==> n in g' && g'[n] == g[n]
  }

  /** A lower node that has lost its last reference is removed; anything else stays. */
  method DropIfDead(m: Manager, e: Edge, ghost s: Mid, ghost b: Table, ghost lows: set<Edge>, ghost todos: set<Edge>)
    returns (ghost s': Mid)
    requires SwapOk(m.Tab(), s) && Stable(b, m.Tab(), s)
    requires TodoChild(s, Edge(e.node, false)) && OnLower(s, e)
    requires forall x :: x in lows ==> Below(s, x)
    requires forall x :: x in todos ==> TodoChild(s, x) && x.node != e.node && x.node != 0
    modifies m`nodes, m`refs, m`den
    ensures SwapOk(m.Tab(), s') && Stable(b, m.Tab(), s')
    ensures SameSetting(s, s') && s'.hole == s.hole && s'.todo == s.todo && UpperKept(s.g, s'.g, s.w)
    ensures forall x :: x in lows ==> Below(s', x) && Sem(s'.den, x) == Sem(s.den, x)
    ensures forall x :: x in todos ==> TodoChild(s', x) && x.node in s.g && x.node in s'.g && s'.g[x.node] == s.g[x.node]
    ensures s.hole != 0 ==> s.hole in s.den && s.hole in s'.den && s'.den[s.hole] == s.den[s.hole]
    ensures DeadSet(m.refs) <= old(DeadSet(m.refs)) - {e.node} + KidSet(s.g[e.node]) && Grows(old(m.Tab()), m.Tab(), 0)
  {
    hide Grows;
    GrowsRefl(m.Tab());
    s' := s;
    var d := e.node;
    if Count(m.refs, d) == 0 {
      DropFacts(m.Tab(), s, b, d, lows, todos);
      LocalGc(m, d, s, b);
      s' := Without(s, d);
      StableSetting(b, m.Tab(), s, s');
    }
  }

  lemma DropFacts(t: Table, s: Mid, b: Table, d: nat, lows: set<Edge>, todos: set<Edge>)
    requires SwapOk(t, s) && d in s.g && d !in s.todo && s.g[d].varid == s.w && Count(t.refs, d) == 0
    requires forall x :: x in lows ==> Below(s, x)
    requires forall x :: x in todos ==> TodoChild(s, x) && x.node != d && x.node != 0
    ensures var s' := Without(s, d);
      && (forall x :: x in lows ==> Below(s', x) && Sem(s'.den, x) == Sem(s.den, x))
      && (forall x :: x in todos ==> TodoChild(s', x) && x.node in s.g && x.node in s'.g && s'.g[x.node] == s.g[x.node])
      && (s.hole != 0 ==> s.hole in s.den && s.hole in s'.den && s'.den[s.hole] == s.den[s.hole])
  {
    var s' := Without(s, d);
    DeadUnreferenced(t, s, d);
    forall x | x in lows
      ensures Below(s', x) && Sem(s'.den, x) == Sem(s.den, x)
    {
      BelowStays(s, d, x);
    }
    forall x | x in todos
      ensures TodoChild(s', x)
    {
      RemoveTodoChild(s, d, x);
    }
  }

  /** The node being rewritten: out of the table, its two edges held, everything else alive. */
  ghost predicate Opening(t: Table, s: Mid, b: Table, nd: Node) {
    && SwapOk(t, s) && Stable(b, t, s) && s.hole != 0 && s.hole in s.den
    && nd.varid == s.v && !nd.thn.neg
    && TodoChild(s, nd.thn) && TodoChild(s, nd.els)
    && s.den[s.hole] == NodeFn(s.den, nd)
    && t.ext == b.ext + Kids(nd)
    && DeadSet(t.refs) == {}
  }

  /** The two children the rewritten node gets, each held once. */
  ghost predicate Ready(t: Table, s: Mid, b: Table, R1: Edge, R0: Edge) {
    && SwapOk(t, s) && Stable(b, t, s)
    && Rewrites(s, Node(s.w, R1, R0))
    && t.ext == b.ext + multiset{R1.node} + multiset{R0.node}
    && DeadSet(t.refs) == {}
  }

  ghost predicate SameFrame(s: Mid, t: Mid) {
    && SameSetting(s, t) && t.hole == s.hole && t.todo == s.todo && UpperKept(s.g, t.g, s.w)
    && s.hole in s.den && t.hole in t.den && s.den[s.hole] == t.den[t.hole]
  }

  lemma SwapBranches(v: nat, w: nat, f11: Fn, f10: Fn, f01: Fn, f00: Fn)
    ensures Shannon(v, Shannon(w, f11, f10), Shannon(w, f01, f00))
         == Shannon(w, Shannon(v, f11, f01), Shannon(v, f10, f00))
  {
  }

  lemma ExtendsBelow(t: Table, s: Mid, t': Table, s': Mid, e: Edge)
    requires SwapOk(t, s) && SwapOk(t', s') && Extends(s, s') && Below(s, e)
    ensures Below(s', e) && Sem(s'.den, e) == Sem(s.den, e)
  {
    ExtendsEdge(s, s', e);
  }

  lemma YieldsFacts(t: Table, s: Mid, t': Table, s': Mid, R: Edge, T: Edge, E: Edge)
    requires SwapOk(t, s) && SwapOk(t', s') && Yields(s, s', R, T, E)
    ensures Extends(s, s') && SameSetting(s, s')
    ensures s.hole != 0 ==> SameFrame(s, s')
  {
  }

  /** The two nodes made for the upper variable are the children of the rewritten node. */
  lemma RewritesOk(t: Table, s: Mid, s1: Mid, s2: Mid, t2: Table, R1: Edge, R0: Edge,
                   F11: Edge, F10: Edge, F01: Edge, F00: Edge)
    requires SwapOk(t, s) && SwapOk(t2, s2) && s.hole != 0 && s.hole in s.den && MidOk(s1)
    requires Yields(s, s1, R1, F11, F01) && Yields(s1, s2, R0, F10, F00) && !F11.neg
    requires Below(s, F11) && Below(s, F01) && Below(s, F10) && Below(s, F00)
    requires s.den[s.hole] == Shannon(s.v, Shannon(s.w, Sem(s.den, F11), Sem(s.den, F10)),
                                           Shannon(s.w, Sem(s.den, F01), Sem(s.den, F00)))
    ensures Rewrites(s2, Node(s.w, R1, R0))
  {
    ExtendsEdge(s, s1, F10);
    ExtendsEdge(s, s1, F00);
    ExtendsEdge(s1, s2, R1);
    SwapBranches(s.v, s.w, Sem(s.den, F11), Sem(s.den, F10), Sem(s.den, F01), Sem(s.den, F00));
  }

  lemma RewritesOkReversed(t: Table, s: Mid, s1: Mid, s2: Mid, t2: Table, R1: Edge, R0: Edge,
                           F11: Edge, F10: Edge, F01: Edge, F00: Edge)
    requires SwapOk(t, s) && SwapOk(t2, s2) && s.hole != 0 && s.hole in s.den && MidOk(s1)
    requires Yields(s, s1, R0, F10, F00) && Yields(s1, s2, R1, F11, F01) && !F11.neg
    requires Below(s, F11) && Below(s, F01) && Below(s, F10) && Below(s, F00)
    requires s.den[s.hole] == Shannon(s.v, Shannon(s.w, Sem(s.den, F11), Sem(s.den, F10)),
                                           Shannon(s.w, Sem(s.den, F01), Sem(s.den, F00)))
    ensures Rewrites(s2, Node(s.w, R1, R0))
  {
    ExtendsEdge(s, s1, F11);
    ExtendsEdge(s, s1, F01);
    ExtendsEdge(s1, s2, R0);
    SwapBranches(s.v, s.w, Sem(s.den, F11), Sem(s.den, F10), Sem(s.den, F01), Sem(s.den, F00));
  }

  /** The rewritten node's function, spread over the four grandchildren. */
  ghost predicate Spread(s: Mid, F11: Edge, F10: Edge, F01: Edge, F00: Edge) {
    && s.hole != 0 && s.hole in s.den && !F11.neg
    && Below(s, F11) && Below(s, F01) && Below(s, F10) && Below(s, F00)
    && s.den[s.hole] == Shannon(s.v, Shannon(s.w, Sem(s.den, F11), Sem(s.den, F10)),
                                     Shannon(s.w, Sem(s.den, F01), Sem(s.den, F00)))
  }

  /** Making the two branches, the common end of the three cases. */
  method MakeBranches(m: Manager, v: nat, F11: Edge, F10: Edge, F01: Edge, F00: Edge,
                      ghost s: Mid, ghost b: Table)
    returns (R1: Edge, R0: Edge, ghost s': Mid)
    requires SwapOk(m.Tab(), s) && Stable(b, m.Tab(), s) && v == s.v && m.ext == b.ext
    requires Spread(s, F11, F10, F01, F00)
    requires DeadSet(m.refs) <= {F11.node, F10.node, F01.node, F00.node}
    modifies m`nodes, m`refs, m`den, m`ext
    ensures Ready(m.Tab(), s', b, R1, R0) && SameFrame(s, s') && Grows(old(m.Tab()), m.Tab(), 2)
  {
    hide SwapOk, Stable, Below, Yields, Extends, TodoChild, Grows, DeadSet, CountsGrow, Ready, Spread, SameFrame, Rewrites, MidOk;
    ghost var t := m.Tab();
    SpreadFacts(s, F11, F10, F01, F00);
    ghost var s1;
    R1, s1 := CreateNode1(m, v, F11, F01, s, b);
    ghost var t1 := m.Tab();
    YieldsFacts(t, s, t1, s1, R1, F11, F01);
    ExtendsBelow(t, s, t1, s1, F10);
    ExtendsBelow(t, s, t1, s1, F00);
    R0, s' := CreateNode1(m, v, F10, F00, s1, b);
    YieldsFacts(t1, s1, m.Tab(), s', R0, F10, F00);
    SwapFacts(t1, s1);
    GrowsTrans(t, t1, m.Tab(), 1, 1);
    NoneDead(t.refs, t1.refs, m.refs, F11.node, F01.node, F10.node, F00.node);
    FrameTrans(s, s1, s');
    RewritesOk(t, s, s1, s', m.Tab(), R1, R0, F11, F10, F01, F00);
    ReadyOk(m.Tab(), s', b, R1, R0);
  }

  /** The same with the ELSE branch made first, as when only the ELSE child is on the lower level. */
  method MakeBranchesElseFirst(m: Manager, v: nat, F1: Edge, F01: Edge, F00: Edge,
                               ghost s: Mid, ghost b: Table)
    returns (R1: Edge, R0: Edge, ghost s': Mid)
    requires SwapOk(m.Tab(), s) && Stable(b, m.Tab(), s) && v == s.v && m.ext == b.ext
    requires Spread(s, F1, F1, F01, F00)
    requires DeadSet(m.refs) <= {F1.node, F01.node, F00.node}
    modifies m`nodes, m`refs, m`den, m`ext
    ensures Ready(m.Tab(), s', b, R1, R0) && SameFrame(s, s') && Grows(old(m.Tab()), m.Tab(), 2)
  {
    hide SwapOk, Stable, Below, Yields, Extends, TodoChild, Grows, DeadSet, CountsGrow, Ready, Spread, SameFrame, Rewrites, MidOk;
    ghost var t := m.Tab();
    SpreadFacts(s, F1, F1, F01, F00);
    ghost var s1;
    R0, s1 := CreateNode1(m, v, F1, F00, s, b);
    ghost var t1 := m.Tab();
    YieldsFacts(t, s, t1, s1, R0, F1, F00);
    ExtendsBelow(t, s, t1, s1, F1);
    ExtendsBelow(t, s, t1, s1, F01);
    R1, s' := CreateNode1(m, v, F1, F01, s1, b);
    YieldsFacts(t1, s1, m.Tab(), s', R1, F1, F01);
    SwapFacts(t1, s1);
    GrowsTrans(t, t1, m.Tab(), 1, 1);
    NoneDead(t.refs, t1.refs, m.refs, F1.node, F00.node, F1.node, F01.node);
    FrameTrans(s, s1, s');
    RewritesOkReversed(t, s, s1, s', m.Tab(), R1, R0, F1, F1, F01, F00);
    ReadyExt(m.ext, b.ext, R1.node, R0.node);
    ReadyOk(m.Tab(), s', b, R1, R0);
  }

  lemma SpreadFacts(s: Mid, F11: Edge, F10: Edge, F01: Edge, F00: Edge)
    requires Spread(s, F11, F10, F01, F00)
    ensures s.hole != 0 && s.hole in s.den && !F11.neg
    ensures Below(s, F11) && Below(s, F01) && Below(s, F10) && Below(s, F00)
    ensures s.den[s.hole] == Shannon(s.v, Shannon(s.w, Sem(s.den, F11), Sem(s.den, F10)),
                                          Shannon(s.w, Sem(s.den, F01), Sem(s.den, F00)))
  {
  }

  lemma FrameTrans(s: Mid, s1: Mid, s2: Mid)
    requires SameFrame(s, s1) && (s1.hole != 0 ==> SameFrame(s1, s2)) && s.hole != 0
    ensures SameFrame(s, s2)
  {
    UpperTrans(s.g, s1.g, s2.g, s.w);
  }

  /** All four possibly dead nodes have a reference in the end. */
  lemma NoneDead(r: Refs, r1: Refs, r2: Refs, a: nat, b: nat, c: nat, d: nat)
    requires DeadSet(r) <= {a, b, c, d} && DeadSet(r1) <= DeadSet(r) && DeadSet(r2) <= DeadSet(r1)
    requires Count(r1, a) > 0 && Count(r1, b) > 0 && CountsGrow(r1, r2) && Count(r2, c) > 0 && Count(r2, d) > 0
    ensures DeadSet(r2) == {}
  {
    assert Count(r2, a) > 0 && Count(r2, b) > 0;
  }

  lemma ReadyOk(t: Table, s: Mid, b: Table, R1: Edge, R0: Edge)
    requires SwapOk(t, s) && Stable(b, t, s) && Rewrites(s, Node(s.w, R1, R0)) && DeadSet(t.refs) == {}
    requires t.ext == b.ext + multiset{R1.node} + multiset{R0.node}
    ensures Ready(t, s, b, R1, R0)
  {
  }

  lemma ReadyExt(x: multiset<nat>, b: multiset<nat>, a: nat, c: nat)
    requires x == b + multiset{c} + multiset{a}
    ensures x == b + multiset{a} + multiset{c}
  {
  }

  /** Both children are on the lower level. */
  method SwapBoth(m: Manager, nd: Node, ghost s: Mid, ghost b: Table)
    returns (R1: Edge, R0: Edge, ghost s': Mid)
    requires Opening(m.Tab(), s, b, nd) && nd.thn != nd.els
    requires OnLower(s, nd.thn) && OnLower(s, nd.els)
    modifies m`nodes, m`refs, m`den, m`ext
    ensures Ready(m.Tab(), s', b, R1, R0) && SameFrame(s, s') && Grows(old(m.Tab()), m.Tab(), 2)
  {
    hide SwapOk, Stable, Below, TodoChild, Kids, DeadSet, MidOk, UpperKept, Grows, Ready;
    ghost var t0 := m.Tab();
    var F1, F0 := nd.thn, nd.els;
    SwapFacts(m.Tab(), s);
    LowerChild(s, F1);
    LowerChild(s, F0);
    var F11, F10 := CofPos(m.nodes, F1), CofNeg(m.nodes, F1);
    var F01, F00 := CofPos(m.nodes, F0), CofNeg(m.nodes, F0);
    ghost var s1 := Release(m, nd, s, b, {F11, F10, F01, F00});
    ghost var t1 := m.Tab();
    R1, R0, s' := MakeBranches(m, nd.varid, F11, F10, F01, F00, s1, b);
    UpperTrans(s.g, s1.g, s'.g, s.w);
    GrowsTrans(t0, t1, m.Tab(), 0, 2);
  }

  /** Both children are given up and removed if that was their last reference. */
  method Release(m: Manager, nd: Node, ghost s: Mid, ghost b: Table, ghost lows: set<Edge>) returns (ghost s': Mid)
    requires Opening(m.Tab(), s, b, nd) && OnLower(s, nd.thn) && OnLower(s, nd.els)
    requires forall x :: x in lows ==> Below(s, x)
    modifies m`nodes, m`refs, m`den, m`ext
    ensures SwapOk(m.Tab(), s') && Stable(b, m.Tab(), s') && m.ext == b.ext && SameFrame(s, s')
    ensures forall x :: x in lows ==> Below(s', x) && Sem(s'.den, x) == Sem(s.den, x)
    ensures nd.thn.node in s.g && nd.els.node in s.g
    ensures DeadSet(m.refs) <= KidSet(s.g[nd.thn.node]) + KidSet(s.g[nd.els.node])
    ensures Grows(old(m.Tab()), m.Tab(), 0)
  {
    hide SwapOk, Stable, Below, TodoChild, Kids, DeadSet, MidOk, UpperKept, Grows;
    var F1, F0 := nd.thn, nd.els;
    ghost var t0 := m.Tab();
    SwapFacts(t0, s);
    TodoRegular(s, F1);
    TodoRegular(s, F0);
    TwoRefs(b.ext, nd);
    TakeLast(b.ext, F0.node);
    DecrRef(m, F1, s, b);
    ghost var t1 := m.Tab();
    DecrRef(m, F0, s, b);
    ghost var t2 := m.Tab();
    GrowsTrans(t0, t1, t2, 0, 0);
    ghost var s1 := DropIfDead(m, F0, s, b, lows, if F1.node != F0.node then {Edge(F1.node, false)} else {});
    ghost var t3 := m.Tab();
    GrowsTrans(t0, t2, t3, 0, 0);
    s' := s1;
    if F1.node != F0.node {
      s' := DropIfDead(m, F1, s1, b, lows, {});
      GrowsTrans(t0, t3, m.Tab(), 0, 0);
    }
    UpperTrans(s1.g, s1.g, s1.g, s.w);
    UpperTrans(s.g, s1.g, s'.g, s.w);
  }

  lemma UpperTrans(g: Nodes, g': Nodes, g'': Nodes, w: nat)
    ensures UpperKept(g, g, w)
    ensures UpperKept(g, g', w) && UpperKept(g', g'', w) ==> UpperKept(g, g'', w)
  {
  }

  lemma TodoRegular(s: Mid, e: Edge)
    requires MidOk(s) && TodoChild(s, e)
    ensures TodoChild(s, Edge(e.node, false)) && (OnLower(s, e) ==> e.node != 0)
  {
  }

  /** Child F on the lower level is given up and removed if dead; the other child G is given up. */
  method ReleaseOne(m: Manager, F: Edge, G: Edge, ghost s: Mid, ghost b: Table, ghost lows: set<Edge>) returns (ghost s': Mid)
    requires SwapOk(m.Tab(), s) && Stable(b, m.Tab(), s) && s.hole != 0 && s.hole in s.den
    requires TodoChild(s, F) && OnLower(s, F) && DeadSet(m.refs) == {}
    requires b.ext + multiset{F.node} <= m.ext && m.ext - multiset{F.node} == b.ext + multiset{G.node}
    requires forall x :: x in lows ==> Below(s, x)
    modifies m`nodes, m`refs, m`den, m`ext
    ensures SwapOk(m.Tab(), s') && Stable(b, m.Tab(), s') && m.ext == b.ext && SameFrame(s, s')
    ensures forall x :: x in lows ==> Below(s', x) && Sem(s'.den, x) == Sem(s.den, x)
    ensures F.node in s.g && DeadSet(m.refs) <= KidSet(s.g[F.node]) + {G.node}
    ensures Grows(old(m.Tab()), m.Tab(), 0)
  {
    hide SwapOk, Stable, Below, TodoChild, DeadSet, MidOk, UpperKept, Grows;
    ghost var t0 := m.Tab();
    SwapFacts(t0, s);
    TodoRegular(s, F);
    DecrRef(m, F, s, b);
    ghost var t1 := m.Tab();
    s' := DropIfDead(m, F, s, b, lows, {});
    ghost var t2 := m.Tab();
    GrowsTrans(t0, t1, t2, 0, 0);
    TakeLast(b.ext, G.node);
    DecrRef(m, G, s', b);
    GrowsTrans(t0, t2, m.Tab(), 0, 0);
  }

  /** Only the ELSE child is on the lower level. */
  method SwapElse(m: Manager, nd: Node, ghost s: Mid, ghost b: Table)
    returns (R1: Edge, R0: Edge, ghost s': Mid)
    requires Opening(m.Tab(), s, b, nd) && nd.thn != nd.els
    requires !OnLower(s, nd.thn) && OnLower(s, nd.els)
    modifies m`nodes, m`refs, m`den, m`ext
    ensures Ready(m.Tab(), s', b, R1, R0) && SameFrame(s, s') && Grows(old(m.Tab()), m.Tab(), 2)
  {
    hide SwapOk, Stable, Below, TodoChild, Kids, DeadSet, MidOk, UpperKept, Grows, Ready;
    ghost var t0 := m.Tab();
    var F1, F0 := nd.thn, nd.els;
    SwapFacts(m.Tab(), s);
    LowerChild(s, F0);
    UpperChild(s, F1);
    var F01, F00 := CofPos(m.nodes, F0), CofNeg(m.nodes, F0);
    TwoRefs(b.ext, nd);
    TakeLast(b.ext, F1.node);
    ghost var s1 := ReleaseOne(m, F0, F1, s, b, {F1, F01, F00});
    ghost var t1 := m.Tab();
    R1, R0, s' := MakeBranchesElseFirst(m, nd.varid, F1, F01, F00, s1, b);
    UpperTrans(s.g, s1.g, s'.g, s.w);
    GrowsTrans(t0, t1, m.Tab(), 0, 2);
  }

  /** Only the THEN child is on the lower level. */
  method SwapThen(m: Manager, nd: Node, ghost s: Mid, ghost b: Table)
    returns (R1: Edge, R0: Edge, ghost s': Mid)
    requires Opening(m.Tab(), s, b, nd) && nd.thn != nd.els
    requires OnLower(s, nd.thn) && !OnLower(s, nd.els)
    modifies m`nodes, m`refs, m`den, m`ext
    ensures Ready(m.Tab(), s', b, R1, R0) && SameFrame(s, s') && Grows(old(m.Tab()), m.Tab(), 2)
  {
    hide SwapOk, Stable, Below, TodoChild, Kids, DeadSet, MidOk, UpperKept, Grows, Ready;
    ghost var t0 := m.Tab();
    var F1, F0 := nd.thn, nd.els;
    SwapFacts(m.Tab(), s);
    LowerChild(s, F1);
    UpperChild(s, F0);
    var F11, F10 := CofPos(m.nodes, F1), CofNeg(m.nodes, F1);
    TwoRefs(b.ext, nd);
    TakeLast(b.ext, F0.node);
    ghost var s1 := ReleaseOne(m, F1, F0, s, b, {F0, F11, F10});
    ghost var t1 := m.Tab();
    R1, R0, s' := MakeBranches(m, nd.varid, F11, F10, F0, F0, s1, b);
    UpperTrans(s.g, s1.g, s'.g, s.w);
    GrowsTrans(t0, t1, m.Tab(), 0, 2);
  }

  /** A child of an unprocessed node that is not on the lower level is below both. */
  lemma UpperChild(s: Mid, e: Edge)
    requires MidOk(s) && TodoChild(s, e) && !OnLower(s, e)
    ensures Below(s, e)
    ensures Sem(s.den, e) == Shannon(s.w, Sem(s.den, e), Sem(s.den, e))
  {
    ShannonSame(s.w, Sem(s.den, e));
    LevelBound(s, e);
  }

  ghost function Unlinked(t: Table, f: nat): Table
    requires f in t.g
  {
    t.(g := t.g - {f}, ext := t.ext + Kids(t.g[f]))
  }

  /** Unlinking a node to be rewritten. */
  lemma UnlinkOk(t: Table, s: Mid, f: nat)
    requires SwapOk(t, s) && s.hole == 0 && f in s.g && f in s.todo && DeadSet(t.refs) == {}
    ensures SwapOk(Unlinked(t, f), Opened(s, f)) && Stable(t, Unlinked(t, f), Opened(s, f))
    ensures Opening(Unlinked(t, f), Opened(s, f), t, t.g[f])
    ensures t.g[f].thn != t.g[f].els && t.g[f].varid == s.v
    ensures OnLower(Opened(s, f), t.g[f].thn) <==> OnLower(s, t.g[f].thn)
    ensures OnLower(Opened(s, f), t.g[f].els) <==> OnLower(s, t.g[f].els)
    ensures OnLower(s, t.g[f].thn) || OnLower(s, t.g[f].els)
  {
    var u := Unlinked(t, f);
    MidOpen(s, f);
    assert MidNode(s, f);
    OpenTodoChild(s, f, t.g[f].thn);
    OpenTodoChild(s, f, t.g[f].els);
    OpenOk(t.g, t.refs, t.ext, multiset{}, t.g.Keys, f);
    RegraphOk(t.g, u.g, t.refs, t.refs, u.ext, multiset{}, t.g.Keys - {f});
    assert u.g.Keys == t.g.Keys - {f};
  }

  ghost function Relinked(t: Table, f: nat, nd: Node): Table {
    t.(g := t.g[f := nd], ext := t.ext - Kids(nd))
  }

  /** Linking the rewritten node into the lower variable's table. */
  lemma RelinkOk(t: Table, s: Mid, b: Table, R1: Edge, R0: Edge)
    requires Ready(t, s, b, R1, R0)
    ensures var u := Relinked(t, s.hole, Node(s.w, R1, R0));
      SwapOk(u, Closed(s, Node(s.w, R1, R0))) && Stable(b, u, s) && u.ext == b.ext
      && DeadSet(u.refs) == {}
  {
    var nd := Node(s.w, R1, R0);
    var u := Relinked(t, s.hole, nd);
    MidClose(s, nd);
    assert t.ext == b.ext + Kids(nd);
    RegraphOk(t.g, u.g, t.refs, t.refs, t.ext, multiset{}, t.g.Keys);
    assert Kids(nd) <= t.ext;
    CloseOk(u.g, t.refs, t.ext, multiset{}, t.g.Keys, s.hole);
    assert u.g.Keys == t.g.Keys + {s.hole};
    KidsCancelAll(b.ext, nd);
  }

  lemma KidsCancelAll(x: multiset<nat>, nd: Node)
    ensures x + Kids(nd) - Kids(nd) == x
  {
  }

  lemma StableTrans(b: Table, t: Table, u: Table, s: Mid)
    requires Stable(b, t, s) && Stable(t, u, s)
    ensures Stable(b, u, s)
  {
    forall n | Must(b, s, n)
      ensures n in u.den && u.den[n] == b.den[n]
    {
      assert t.ext[n] >= b.ext[n];
      assert Must(t, s, n);
    }
  }

  predicate LowerEdge(g: Nodes, ranks: seq<nat>, e: Edge, r: nat) {
    e.node in g && VarRank(ranks, g[e.node].varid) == r
  }

  /** The order the ranks table still has while a level is being processed. */
  ghost predicate OldOrder(s: Mid, ranks: seq<nat>) {
    && OrderOk(ranks) && s.v < |ranks| && s.w < |ranks| && ranks[s.w] == ranks[s.v] + 1
    && s.ranks == SwapRanks(ranks, s.v, s.w)
  }

  lemma LowerEdgeIsOnLower(s: Mid, ranks: seq<nat>, e: Edge)
    requires MidOk(s) && OldOrder(s, ranks)
    ensures LowerEdge(s.g, ranks, e, ranks[s.v] + 1) <==> OnLower(s, e)
  {
    if e.node in s.g {
      assert MidNode(s, e.node);
    }
  }

  ghost predicate Processed(t: Table, s: Mid, u: Table, s': Mid, F: nat) {
    && SwapOk(u, s') && SameSetting(s, s') && s'.hole == 0 && s'.todo == s.todo - {F}
    && DeadSet(u.refs) == {} && u.ext == t.ext && Stable(t, u, s')
    && UpperKept(t.g - {F}, u.g, s.w)
  }

  /** The three cases of a node to be rewritten: which of its children are on the next rank. */
  method Rebranch(m: Manager, nd: Node, next: nat, ghost o: Mid, ghost t: Table)
    returns (R1: Edge, R0: Edge, ghost s': Mid)
    requires Opening(m.Tab(), o, t, nd) && nd.thn != nd.els
    requires LowerEdge(m.nodes, m.ranks, nd.thn, next) <==> OnLower(o, nd.thn)
    requires LowerEdge(m.nodes, m.ranks, nd.els, next) <==> OnLower(o, nd.els)
    requires OnLower(o, nd.thn) || OnLower(o, nd.els)
    modifies m`nodes, m`refs, m`den, m`ext
    ensures Ready(m.Tab(), s', t, R1, R0) && SameFrame(o, s') && Grows(old(m.Tab()), m.Tab(), 2)
  {
    hide Opening, Ready, OnLower, LowerEdge, SameFrame, Grows;
    if LowerEdge(m.nodes, m.ranks, nd.thn, next) && LowerEdge(m.nodes, m.ranks, nd.els, next) {
      R1, R0, s' := SwapBoth(m, nd, o, t);
    } else if LowerEdge(m.nodes, m.ranks, nd.els, next) {
      R1, R0, s' := SwapElse(m, nd, o, t);
    } else {
      R1, R0, s' := SwapThen(m, nd, o, t);
    }
  }

  /** The body of the loop of bdd_process_level for a node with a child on the next rank. */
  method ProcessNode(m: Manager, F: nat, w: nat, ghost s: Mid) returns (ghost s': Mid)
    requires SwapOk(m.Tab(), s) && s.hole == 0 && DeadSet(m.refs) == {} && w == s.w
    requires OldOrder(s, m.ranks) && F in m.nodes && F in s.todo
    modifies m`nodes, m`refs, m`den, m`ext
    ensures Processed(old(m.Tab()), s, m.Tab(), s', F) && Grows(old(m.Tab()), m.Tab(), 2)
  {
    hide SwapOk, Stable, Opening, Ready, MidOk, TodoChild, Kids, DeadSet, OldOrder, Grows, LowerEdge, OnLower, Processed;
    ghost var t := m.Tab();
    var nd := m.nodes[F];
    SwapFacts(t, s);
    UnlinkOk(t, s, F);
    ghost var o := Opened(s, F);
    OpeningLower(t, s, m.ranks, F);
    m.nodes := m.nodes - {F};
    m.ext := m.ext + Kids(nd);
    var R1, R0;
    R1, R0, s' := Rebranch(m, nd, m.ranks[nd.varid] + 1, o, t);
    ghost var u := m.Tab();
    m.nodes := m.nodes[F := Node(w, R1, R0)];
    m.ext := m.ext - Kids(Node(w, R1, R0));
    ProcessedOk(t, s, u, s', R1, R0, F);
    s' := Closed(s', Node(w, R1, R0));
  }

  /** Linking the rewritten node back completes the step. */
  lemma ProcessedOk(t: Table, s: Mid, u: Table, p: Mid, R1: Edge, R0: Edge, F: nat)
    requires SwapOk(t, s) && s.hole == 0 && F in t.g && F in s.todo
    requires Ready(u, p, t, R1, R0) && SameFrame(Opened(s, F), p) && Grows(Unlinked(t, F), u, 2)
    ensures var nd := Node(s.w, R1, R0);
      Processed(t, s, Relinked(u, F, nd), Closed(p, nd), F) && Grows(t, Relinked(u, F, nd), 2)
  {
    hide SwapOk, Stable, Ready, Grows, Kids, DeadSet, UpperKept, SameFrame, Opened, Closed, MidOk;
    var nd := Node(s.w, R1, R0);
    SwapFacts(t, s);
    ClosedSetting(s, F, p, nd);
    RelinkOk(u, p, t, R1, R0);
    GrowsRewrite(t, u, F, nd, 2);
    StableSetting(t, Relinked(u, F, nd), p, Closed(p, nd));
    ReadyGraph(u, p, t, R1, R0);
    RelinkedUpper(t.g, u.g, F, nd);
  }

  lemma ReadyGraph(t: Table, s: Mid, b: Table, R1: Edge, R0: Edge)
    requires Ready(t, s, b, R1, R0)
    ensures s.g == t.g
  {
  }

  lemma ClosedSetting(s: Mid, F: nat, p: Mid, nd: Node)
    requires SameFrame(Opened(s, F), p) && s.hole == 0 && F in s.todo && F in s.g
    ensures SameSetting(s, p) && SameSetting(p, Closed(p, nd)) && SameSetting(s, Closed(p, nd)) && p.hole == F
    ensures Closed(p, nd).hole == 0 && Closed(p, nd).todo == s.todo - {F} && UpperKept(s.g - {F}, p.g, s.w)
  {
  }

  lemma OpeningLower(t: Table, s: Mid, ranks: seq<nat>, f: nat)
    requires SwapOk(t, s) && OldOrder(s, ranks) && s.hole == 0 && f in t.g && f in s.todo
    ensures t.g[f].varid == s.v && s.v < |ranks|
    ensures LowerEdge(t.g - {f}, ranks, t.g[f].thn, ranks[s.v] + 1) <==> OnLower(Opened(s, f), t.g[f].thn)
    ensures LowerEdge(t.g - {f}, ranks, t.g[f].els, ranks[s.v] + 1) <==> OnLower(Opened(s, f), t.g[f].els)
  {
    assert MidNode(s, f);
    MidOpen(s, f);
    LowerEdgeIsOnLower(Opened(s, f), ranks, t.g[f].thn);
    LowerEdgeIsOnLower(Opened(s, f), ranks, t.g[f].els);
  }

  lemma RelinkedUpper(g: Nodes, g': Nodes, f: nat, nd: Node)
    requires UpperKept(g - {f}, g', nd.varid)
    ensures UpperKept(g - {f}, g'[f := nd], nd.varid)
  {
  }

  /** What exchanging the levels of v and w (just below v) does to the table. Nothing held is given
      up. A node survives under its address with its function unless it is on the lower level and
      neither held nor frozen. The upper nodes with a child on the lower level now test w first;
      every other node not on the lower level keeps its variable and its links. */
  ghost predicate Swapped(t: Table, u: Table, v: nat, w: nat) {
    && u.ext == t.ext && FrozenKept(t.refs, u.refs) && DeadSet(u.refs) == {}
    && (forall n {:trigger n in t.g} {:trigger n in u.g} ::
          n in t.g && (t.g[n].varid != w || t.ext[n] > 0 || n in Frozen(t.refs)) ==>
            n in u.g && n in t.den && n in u.den && u.den[n] == t.den[n])
    && (forall n {:trigger n in t.g} {:trigger n in u.g} ::
          n in t.g && t.g[n].varid != w && n !in Upper(t.g, v, w) ==> n in u.g && u.g[n] == t.g[n])
    && (forall n {:trigger n in Upper(t.g, v, w)} :: n in Upper(t.g, v, w) ==> n in u.g && u.g[n].varid == w)
  }

  ghost predicate Adjacent(ranks: seq<nat>, v: nat, w: nat) {
    v < |ranks| && w < |ranks| && ranks[w] == ranks[v] + 1
  }

  lemma LevelStart(t: Table, ranks: seq<nat>, v: nat, w: nat)
    requires TableOk(t, ranks) && DeadSet(t.refs) == {} && Adjacent(ranks, v, w)
    ensures var s := Start(t.g, t.den, ranks, v, w);
      SwapOk(t, s) && Stable(t, t, s) && OldOrder(s, ranks)
  {
    MidStart(t.g, t.den, ranks, v, w);
    assert Live(t.g, t.refs) == t.g.Keys;
  }

  lemma LevelEnd(t: Table, s: Mid)
    requires SwapOk(t, s) && s.hole == 0 && s.todo == {} && DeadSet(t.refs) == {}
    ensures TableOk(t, s.ranks)
  {
    MidEnd(s);
    assert Live(t.g, t.refs) == t.g.Keys;
  }

  /** The nodes still to be visited are on the upper level and include all that must change. */
  ghost predicate QueueOk(g: Nodes, s: Mid, queue: set<nat>) {
    s.todo <= queue && (forall n {:trigger n in queue} :: n in queue ==> n in g && g[n].varid == s.v)
  }

  lemma QueueTest(t: Table, s: Mid, ranks: seq<nat>, queue: set<nat>, n: nat)
    requires SwapOk(t, s) && OldOrder(s, ranks) && QueueOk(t.g, s, queue) && n in queue
    ensures n in t.g && n in t.refs && t.g[n].varid == s.v
    ensures n in s.todo <==> (LowerEdge(t.g, ranks, t.g[n].thn, ranks[s.v] + 1)
                              || LowerEdge(t.g, ranks, t.g[n].els, ranks[s.v] + 1))
  {
    assert MidNode(s, n);
    LowerEdgeIsOnLower(s, ranks, t.g[n].thn);
    LowerEdgeIsOnLower(s, ranks, t.g[n].els);
  }

  lemma QueueNext(t: Table, s: Mid, u: Table, s': Mid, queue: set<nat>, n: nat)
    requires QueueOk(t.g, s, queue) && n in queue && s.v != s.w && Processed(t, s, u, s', n)
    ensures QueueOk(u.g, s', queue - {n})
  {
  }

  lemma UpperNext(g0: Nodes, up: set<nat>, t: Table, s: Mid, u: Table, s': Mid, n: nat)
    requires UpperKept(g0 - up, t.g, s.w) && n in up && Processed(t, s, u, s', n)
    ensures UpperKept(g0 - up, u.g, s.w)
  {
  }

  lemma StableNext(b: Table, t: Table, s: Mid, u: Table, s': Mid, n: nat)
    requires Stable(b, t, s) && Processed(t, s, u, s', n)
    ensures Stable(b, u, s') && SameSetting(s, s') && u.ext == t.ext
  {
    StableSetting(b, t, s, s');
    StableTrans(b, t, u, s');
  }

  /** What holds between two turns of the loop of bdd_process_level. */
  ghost predicate Visiting(b: Table, s0: Mid, t: Table, s: Mid, queue: set<nat>) {
    && SwapOk(t, s) && SameSetting(s0, s) && s.hole == 0 && DeadSet(t.refs) == {}
    && Stable(b, t, s) && t.ext == b.ext && QueueOk(t.g, s, queue)
    && s.todo <= s0.todo && UpperKept(b.g - s0.todo, t.g, s.w)
  }

  lemma VisitStart(t: Table, ranks: seq<nat>, v: nat, w: nat)
    requires TableOk(t, ranks) && DeadSet(t.refs) == {} && Adjacent(ranks, v, w)
    ensures var s := Start(t.g, t.den, ranks, v, w);
      Visiting(t, s, t, s, set n | n in t.g && t.g[n].varid == v) && OldOrder(s, ranks)
  {
    LevelStart(t, ranks, v, w);
  }

  lemma VisitNext(b: Table, s0: Mid, t: Table, s: Mid, u: Table, s': Mid, queue: set<nat>, n: nat)
    requires Visiting(b, s0, t, s, queue) && n in queue && n in s.todo && s.v != s.w
    requires Processed(t, s, u, s', n)
    ensures Visiting(b, s0, u, s', queue - {n})
  {
    hide SwapOk, Stable, UpperKept;
    QueueNext(t, s, u, s', queue, n);
    UpperNext(b.g, s0.todo, t, s, u, s', n);
    StableNext(b, t, s, u, s', n);
  }

  lemma VisitSkip(b: Table, s0: Mid, t: Table, s: Mid, queue: set<nat>, n: nat)
    requires Visiting(b, s0, t, s, queue) && n in queue && n !in s.todo
    ensures Visiting(b, s0, t, s, queue - {n})
  {
  }

  lemma VisitFacts(b: Table, s0: Mid, t: Table, s: Mid, queue: set<nat>, ranks: seq<nat>)
    requires Visiting(b, s0, t, s, queue) && OldOrder(s0, ranks)
    ensures SwapOk(t, s) && s.hole == 0 && DeadSet(t.refs) == {} && OldOrder(s, ranks)
    ensures QueueOk(t.g, s, queue) && s.v == s0.v && s.w == s0.w && s.v != s.w
    ensures t.ext == b.ext && s.ranks == s0.ranks
  {
  }

  lemma VisitEnd(b: Table, ranks: seq<nat>, v: nat, w: nat, t: Table, s: Mid)
    requires TableOk(b, ranks) && DeadSet(b.refs) == {} && Adjacent(ranks, v, w)
    requires Visiting(b, Start(b.g, b.den, ranks, v, w), t, s, {})
    ensures TableOk(t, SwapRanks(ranks, v, w)) && Swapped(b, t, v, w)
  {
    hide RefsOk, NodeOk, OrderOk;
    var s0 := Start(b.g, b.den, ranks, v, w);
    LevelEnd(t, s);
    LevelStart(b, ranks, v, w);
    forall n | n in b.g && (b.g[n].varid != w || b.ext[n] > 0 || n in Frozen(b.refs))
      ensures n in t.g && n in b.den && n in t.den && t.den[n] == b.den[n]
    {
      if b.g[n].varid != w {
        NotLowerFn(b.g, b.den, ranks, v, w, n);
      }
      assert Must(b, s, n);
    }
    forall n | n in Upper(b.g, v, w)
      ensures n in t.g && t.g[n].varid == w
    {
      assert n in b.g && b.g[n].varid != w;
      RelabelledTo(s0, s, n);
    }
    UpperStays(b, t, v, w);
  }

  lemma UpperStays(b: Table, t: Table, v: nat, w: nat)
    requires UpperKept(b.g - Upper(b.g, v, w), t.g, w)
    ensures forall n {:trigger n in b.g} {:trigger n in t.g} ::
      n in b.g && b.g[n].varid != w && n !in Upper(b.g, v, w) ==> n in t.g && t.g[n] == b.g[n]
  {
    forall n | n in b.g && b.g[n].varid != w && n !in Upper(b.g, v, w)
      ensures n in t.g && t.g[n] == b.g[n]
    {
      assert n in b.g - Upper(b.g, v, w);
    }
  }

  lemma NotLowerFn(g: Nodes, den: Den, ranks: seq<nat>, v: nat, w: nat, n: nat)
    requires WF(g, ranks, den) && Adjacent(ranks, v, w) && n in g && g[n].varid != w
    ensures !LowerFn(den[n], SwapRanks(ranks, v, w), v, w)
  {
    var x := g[n].varid;
    assert NodeOk(g, ranks, n);
    TopVariableMatters(g, ranks, den, Edge(n, false));
    var ranks' := SwapRanks(ranks, v, w);
    assert x < |ranks'| && (x != v ==> ranks'[x] == ranks[x]);
    if x != v && ranks[x] > ranks[v] {
      SemIndep(g, ranks, den, Edge(n, false), w);
    }
  }

  /** A node that had to be rewritten tests w first in the end. */
  lemma RelabelledTo(s0: Mid, s: Mid, n: nat)
    requires MidOk(s0) && MidOk(s) && SameSetting(s0, s) && s.hole == 0 && s0.hole == 0 && s.todo == {}
    requires n in s0.todo && n in s0.g && n in s.g && s.den[n] == s0.den[n]
    ensures s.g[n].varid == s.w
  {
    assert MidNode(s, n);
    var x := s.g[n].varid;
    OpenDepends(s0, n);
    MidDepends(s, n);
    if s.ranks[x] < s.ranks[s.w] {
      MidIndep(s0, Edge(n, false), x);
    } else if s.ranks[s.w] < s.ranks[x] {
      MidIndep(s, Edge(n, false), s.w);
    }
  }

  /** One turn of the loop of bdd_process_level. */
  method Visit(m: Manager, n: nat, w: nat, ghost b: Table, ghost s0: Mid, ghost s: Mid, ghost queue: set<nat>)
    returns (ghost s': Mid)
    requires Visiting(b, s0, m.Tab(), s, queue) && n in queue
    requires OldOrder(s0, m.ranks) && w == s0.w
    modifies m`nodes, m`refs, m`den, m`ext
    ensures Visiting(b, s0, m.Tab(), s', queue - {n}) && Grows(old(m.Tab()), m.Tab(), 2)
  {
    hide SwapOk, Visiting, Processed, OldOrder, QueueOk, DeadSet, Grows;
    ghost var t := m.Tab();
    VisitFacts(b, s0, t, s, queue, m.ranks);
    QueueTest(t, s, m.ranks, queue, n);
    var nd := m.nodes[n];
    QueueRank(s, m.ranks, nd.varid);
    var next := m.ranks[nd.varid] + 1;
    if !LowerEdge(m.nodes, m.ranks, nd.thn, next) && !LowerEdge(m.nodes, m.ranks, nd.els, next) {
      VisitSkip(b, s0, t, s, queue, n);
      GrowsRefl(t);
      GrowsMore(t, t, 0, 2);
      s' := s;
    } else {
      s' := ProcessNode(m, n, w, s);
      VisitNext(b, s0, t, s, m.Tab(), s', queue, n);
    }
  }

  lemma QueueRank(s: Mid, ranks: seq<nat>, v: nat)
    requires OldOrder(s, ranks) && v == s.v
    ensures v < |ranks|
  {
  }

  /** bdd_process_level: rewrite the nodes of one rank that have a child on the next. The nodes
      are visited in no particular order. */
  method ProcessLevel(m: Manager, rank: nat)
    requires Inverse(m.ranks, m.space) && TableOk(m.Tab(), m.ranks) && DeadSet(m.refs) == {}
    requires rank + 1 < |m.space|
    modifies m`nodes, m`refs, m`den, m`ext
    ensures m.space[rank] < |m.ranks| && m.space[rank + 1] < |m.ranks|
    ensures Swapped(old(m.Tab()), m.Tab(), m.space[rank], m.space[rank + 1])
    ensures TableOk(m.Tab(), SwapRanks(m.ranks, m.space[rank], m.space[rank + 1]))
    ensures Grows(old(m.Tab()), m.Tab(), 2 * old(|m.nodes|))
  {
    hide SwapOk, TableOk, DeadSet, Visiting, OldOrder, Swapped, SwapRanks, Upper, Grows;
    var v, w := m.space[rank], m.space[rank + 1];
    ghost var b := m.Tab();
    assert Adjacent(m.ranks, v, w);
    ghost var s0 := Start(m.nodes, m.den, m.ranks, v, w);
    VisitStart(b, m.ranks, v, w);
    ghost var s := s0;
    var queue := set n | n in m.nodes && m.nodes[n].varid == v;
    ghost var todo := |queue|;
    QueueSize(m.nodes, queue);
    GrowsRefl(b);
    while queue != {}
      invariant Visiting(b, s0, m.Tab(), s, queue) && |queue| <= todo
      invariant Grows(b, m.Tab(), 2 * (todo - |queue|))
      decreases queue
    {
      var n :| n in queue;
      ghost var t := m.Tab();
      s := Visit(m, n, w, b, s0, s, queue);
      GrowsTrans(b, t, m.Tab(), 2 * (todo - |queue|), 2);
      queue := queue - {n};
    }
    GrowsMore(b, m.Tab(), 2 * todo, 2 * |b.g|);
    VisitEnd(b, m.ranks, v, w, m.Tab(), s);
  }

  lemma QueueSize(g: Nodes, queue: set<nat>)
    requires queue <= g.Keys
    ensures |queue| <= |g|
  {
    assert g.Keys == queue + (g.Keys - queue);
    assert |g| == |g.Keys|;
  }

  lemma SwapInverse(ranks: seq<nat>, space: seq<nat>, r: nat)
    requires Inverse(ranks, space) && r + 1 < |space|
    ensures var v, w := space[r], space[r + 1];
      && SwapRanks(ranks, v, w) == ranks[v := r + 1][w := r]
      && Inverse(SwapRanks(ranks, v, w), space[r := w][r + 1 := v])
  {
    var v, w := space[r], space[r + 1];
    assert ranks[v] == r && ranks[w] == r + 1;
  }

  /** BDD_SWAP_RANKS */
  method SwapLevels(m: Manager, rank: nat)
    requires m.Core() && DeadSet(m.refs) == {} && rank + 1 < |m.space|
    modifies m`nodes, m`refs, m`den, m`ext, m`ranks, m`space
    ensures m.Core()
    ensures m.space == old(m.space[rank := m.space[rank + 1]][rank + 1 := m.space[rank]])
    ensures Swapped(old(m.Tab()), m.Tab(), old(m.space[rank]), old(m.space[rank + 1]))
    ensures Grows(old(m.Tab()), m.Tab(), 2 * old(|m.nodes|))
  {
    hide TableOk, DeadSet, Swapped, Inverse, SwapRanks, Grows;
    ProcessLevel(m, rank);
    SwapInverse(m.ranks, m.space, rank);
    var v, w := m.space[rank], m.space[rank + 1];
    m.ranks := m.ranks[v := rank + 1][w := rank];
    m.space := m.space[rank := w][rank + 1 := v];
  }
}
