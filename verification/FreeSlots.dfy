/** Giving the slots back in a traversal that reverses the links of the very graph whose counts go
    down. */
module FreeSlots {
  import opened Graph
  import opened RefCount
  import opened State
  import opened Tables
  import opened Slots
  import T = Traverse

  /** What the freeing action changes. */
  datatype Fields = Fields(refs: Refs, aux1: map<nat, Edge>, aux2: map<nat, Edge>)

  /** The counts once the slot of n has been given back in memory h. */
  function SlotFreed(h: Nodes, refs: Refs, a: map<nat, Edge>, n: nat): Refs {
    if n in a then Released(h, refs, a[n].node, TERMID) else refs
  }

  /** bdd_free_aux1_action or bdd_free_aux1_and_aux2_action */
  function FreeAction(h: Nodes, v: Edge, st: Fields): Fields {
    Fields(SlotFreed(h, SlotFreed(h, st.refs, st.aux1, v.node), st.aux2, v.node), st.aux1 - {v.node}, st.aux2 - {v.node})
  }

  // ---- why the action does not notice reversed links: no node of the area can die

  /** What table s0 keeps alive stays alive in s as long as its references are held. */
  ghost predicate Backed(s0: Table, s: Table, ranks: seq<nat>, area: set<nat>) {
    && TableOk(s0, ranks) && FrozenKept(s0.refs, s.refs) && LiveAgree(s0.g, s0.refs, s.g)
    && (forall n {:trigger n in area} :: n in area && n in s.g ==> Count(s0.refs, n) > 0)
  }

  lemma AreaAlive(s0: Table, s: Table, ranks: seq<nat>, area: set<nat>, n: nat)
    requires Backed(s0, s, ranks, area) && TableOk(s, ranks) && s0.ext <= s.ext && n in area && n in s.g
    ensures Count(s.refs, n) > 0
  {
    StaysAlive(s0.g, s0.refs, s0.ext, s.g, s.refs, s.ext, ranks, n);
  }

  lemma BackedSame(s0: Table, s: Table, t: Table, ranks: seq<nat>, area: set<nat>)
    requires Backed(s0, s, ranks, area) && t.g == s.g && FrozenSame(s.refs, t.refs)
    ensures Backed(s0, t, ranks, area)
  {
  }

  /** Memory h differs from g on the area only. */
  ghost predicate Outside(g: Nodes, h: Nodes, area: set<nat>) {
    h.Keys == g.Keys && forall n {:trigger h[n]} :: n in g && n !in area ==> h[n] == g[n]
  }

  ghost function Less(s: Table, n: nat, refs: Refs): Table {
    s.(refs := refs, ext := s.ext - multiset{n})
  }

  lemma SplitKids(x: multiset<nat>, y: multiset<nat>, n: nat, nd: Node)
    requires x + multiset{n} <= y
    ensures var z := y - multiset{n} + Kids(nd);
      && x <= z && x + multiset{nd.thn.node} <= z && x + multiset{nd.els.node} <= z - multiset{nd.thn.node}
      && z - multiset{nd.thn.node} - multiset{nd.els.node} == y - multiset{n}
  {
    KidsCancel(y - multiset{n}, nd);
    assert x <= y - multiset{n};
  }

  /** Giving up a reference that s0 does not count on: the table stays right, the same nodes are frozen,
      and it makes no difference what the links in the area are. */
  lemma {:induction false} ReleasedOk(s0: Table, s: Table, ranks: seq<nat>, area: set<nat>, h: Nodes, n: nat, fuel: nat)
    requires TableOk(s, ranks) && Backed(s0, s, ranks, area) && Outside(s.g, h, area)
    requires s0.ext + multiset{n} <= s.ext && fuel + Rank(s.g, ranks, Edge(n, false)) >= TERMID
    ensures var r := Released(s.g, s.refs, n, fuel);
      TableOk(Less(s, n, r), ranks) && FrozenSame(s.refs, r) && Released(h, s.refs, n, fuel) == r
    decreases fuel
  {
    hide TableOk, Backed, Outside, Kids, FrozenSame, FrozenKept;
    assert s.ext[n] >= multiset{n}[n];
    HeldOk(s, ranks, n);
    if s.refs[n] == 1 && n in s.g {
      DyingOk(s0, s, ranks, area, h, n, fuel);
    } else {
      SameUpdate(s.refs, n, Decr(s.refs[n]));
      DropOk(s, ranks, n);
      assert Decr(s.refs[n]) == MAXREF ==> s.refs[n := MAXREF] == s.refs;
      OutsideKeys(s.g, h, area);
    }
  }

  lemma OutsideKeys(g: Nodes, h: Nodes, area: set<nat>)
    requires Outside(g, h, area)
    ensures h.Keys == g.Keys
  {
  }

  /** The node dies, so it is not in the area. */
  lemma DyingFacts(s0: Table, s: Table, ranks: seq<nat>, area: set<nat>, h: Nodes, n: nat)
    requires TableOk(s, ranks) && Backed(s0, s, ranks, area) && Outside(s.g, h, area)
    requires s0.ext + multiset{n} <= s.ext && n in s.g && Count(s.refs, n) == 1
    ensures var s1 := s.(refs := s.refs[n := 0], ext := s.ext - multiset{n} + Kids(s.g[n]));
      && TableOk(s1, ranks) && FrozenSame(s.refs, s1.refs) && Backed(s0, s1, ranks, area)
    ensures n in h && h[n] == s.g[n]
    ensures var e := Edge(n, false);
      && Rank(s.g, ranks, e) < Rank(s.g, ranks, Edge(s.g[n].thn.node, false)) && Rank(s.g, ranks, e) < TERMID
      && Rank(s.g, ranks, e) < Rank(s.g, ranks, Edge(s.g[n].els.node, false))
  {
    var s1 := s.(refs := s.refs[n := 0], ext := s.ext - multiset{n} + Kids(s.g[n]));
    assert s.ext[n] >= multiset{n}[n];
    DieOk(s, ranks, n);
    SplitKids(s0.ext, s.ext, n, s.g[n]);
    SameUpdate(s.refs, n, 0);
    BackedSame(s0, s, s1, ranks, area);
    if n in area {
      AreaAlive(s0, s1, ranks, area, n);
    }
    assert NodeOk(s.g, ranks, n);
  }

  lemma DyingOk(s0: Table, s: Table, ranks: seq<nat>, area: set<nat>, h: Nodes, n: nat, fuel: nat)
    requires TableOk(s, ranks) && Backed(s0, s, ranks, area) && Outside(s.g, h, area)
    requires s0.ext + multiset{n} <= s.ext && fuel + Rank(s.g, ranks, Edge(n, false)) >= TERMID
    requires n in s.g && n in s.refs && s.refs[n] == 1
    ensures var r := Released(s.g, s.refs, n, fuel);
      TableOk(Less(s, n, r), ranks) && FrozenSame(s.refs, r) && Released(h, s.refs, n, fuel) == r
    decreases fuel, 0
  {
    hide TableOk, Backed, Outside, Kids, FrozenSame, FrozenKept, Rank;
    DyingFacts(s0, s, ranks, area, h, n);
    var nd := s.g[n];
    SplitKids(s0.ext, s.ext, n, nd);
    var s1 := s.(refs := s.refs[n := 0], ext := s.ext - multiset{n} + Kids(nd));
    ReleasedOk(s0, s1, ranks, area, h, nd.thn.node, fuel - 1);
    var r1 := Released(s.g, s1.refs, nd.thn.node, fuel - 1);
    var s2 := Less(s1, nd.thn.node, r1);
    BackedSame(s0, s1, s2, ranks, area);
    ReleasedOk(s0, s2, ranks, area, h, nd.els.node, fuel - 1);
    var r2 := Released(s.g, r1, nd.els.node, fuel - 1);
    SameTrans(s.refs, s1.refs, r1);
    SameTrans(s.refs, r1, r2);
    assert Less(s2, nd.els.node, r2) == Less(s, n, r2);
    assert Released(s.g, s.refs, n, fuel) == r2;
    assert Released(h, s.refs, n, fuel) == r2;
  }

  // ---- the state during the traversal

  /** Table g with the counts and slots of st: every slot left holds a reference beside base. */
  ghost function TableOf(g: Nodes, den: Den, base: multiset<nat>, st: Fields): Table {
    Table(g, st.refs, den, base + Held(st.aux1) + Held(st.aux2))
  }

  ghost predicate FieldsOk(s0: Table, s: Table, ranks: seq<nat>, area: set<nat>, base: multiset<nat>, st: Fields) {
    && TableOk(TableOf(s.g, s.den, base, st), ranks) && Backed(s0, TableOf(s.g, s.den, base, st), ranks, area)
    && s0.ext <= base && FrozenSame(s.refs, st.refs)
  }

  lemma TakeFirst(x: multiset<nat>, base: multiset<nat>, a: map<nat, Edge>, h: multiset<nat>, n: nat)
    requires n in a && x <= base
    ensures var y := base + Held(a) + h;
      x + multiset{a[n].node} <= y && y - multiset{a[n].node} == base + Held(a - {n}) + h
  {
    HeldRemove(a, n);
    TakeOne(x, base, Held(a - {n}), h, a[n].node);
  }

  lemma TakeSecond(x: multiset<nat>, base: multiset<nat>, h: multiset<nat>, a: map<nat, Edge>, n: nat)
    requires n in a && x <= base
    ensures var y := base + h + Held(a);
      x + multiset{a[n].node} <= y && y - multiset{a[n].node} == base + h + Held(a - {n})
  {
    HeldRemove(a, n);
    TakeLast(x, base, h, Held(a - {n}), a[n].node);
  }

  lemma TakeOne(x: multiset<nat>, base: multiset<nat>, h1: multiset<nat>, h2: multiset<nat>, e: nat)
    requires x <= base
    ensures var y := base + (h1 + multiset{e}) + h2;
      x + multiset{e} <= y && y - multiset{e} == base + h1 + h2
  {
  }

  lemma TakeLast(x: multiset<nat>, base: multiset<nat>, h1: multiset<nat>, h2: multiset<nat>, e: nat)
    requires x <= base
    ensures var y := base + h1 + (h2 + multiset{e});
      x + multiset{e} <= y && y - multiset{e} == base + h1 + h2
  {
  }

  lemma NotThere(a: map<nat, Edge>, n: nat)
    requires n !in a
    ensures a - {n} == a
  {
  }

  /** The first slot. */
  lemma FirstFreed(s0: Table, s: Table, h: Nodes, ranks: seq<nat>, area: set<nat>, base: multiset<nat>, st: Fields, n: nat)
    requires FieldsOk(s0, s, ranks, area, base, st) && Outside(s.g, h, area)
    ensures var st' := st.(refs := SlotFreed(s.g, st.refs, st.aux1, n), aux1 := st.aux1 - {n});
      FieldsOk(s0, s, ranks, area, base, st') && SlotFreed(h, st.refs, st.aux1, n) == st'.refs
  {
    hide TableOk, Backed, Outside, Held, Released, FrozenSame;
    var u := TableOf(s.g, s.den, base, st);
    var st' := st.(refs := SlotFreed(s.g, st.refs, st.aux1, n), aux1 := st.aux1 - {n});
    if n in st.aux1 {
      var e := st.aux1[n].node;
      TakeFirst(s0.ext, base, st.aux1, Held(st.aux2), n);
      ReleasedOk(s0, u, ranks, area, h, e, TERMID);
      assert TableOf(s.g, s.den, base, st') == Less(u, e, st'.refs);
      SameTrans(s.refs, st.refs, st'.refs);
      BackedSame(s0, u, TableOf(s.g, s.den, base, st'), ranks, area);
    } else {
      NotThere(st.aux1, n);
      assert st' == st;
    }
  }

  /** The second slot. */
  lemma SecondFreed(s0: Table, s: Table, h: Nodes, ranks: seq<nat>, area: set<nat>, base: multiset<nat>, st: Fields, n: nat)
    requires FieldsOk(s0, s, ranks, area, base, st) && Outside(s.g, h, area)
    ensures var st' := st.(refs := SlotFreed(s.g, st.refs, st.aux2, n), aux2 := st.aux2 - {n});
      FieldsOk(s0, s, ranks, area, base, st') && SlotFreed(h, st.refs, st.aux2, n) == st'.refs
  {
    hide TableOk, Backed, Outside, Held, Released, FrozenSame;
    var u := TableOf(s.g, s.den, base, st);
    var st' := st.(refs := SlotFreed(s.g, st.refs, st.aux2, n), aux2 := st.aux2 - {n});
    if n in st.aux2 {
      var e := st.aux2[n].node;
      TakeSecond(s0.ext, base, Held(st.aux1), st.aux2, n);
      ReleasedOk(s0, u, ranks, area, h, e, TERMID);
      assert TableOf(s.g, s.den, base, st') == Less(u, e, st'.refs);
      SameTrans(s.refs, st.refs, st'.refs);
      BackedSame(s0, u, TableOf(s.g, s.den, base, st'), ranks, area);
    } else {
      NotThere(st.aux2, n);
      assert st' == st;
    }
  }

  lemma FreeActionOk(s0: Table, s: Table, h: Nodes, ranks: seq<nat>, area: set<nat>, base: multiset<nat>, st: Fields, v: Edge)
    requires FieldsOk(s0, s, ranks, area, base, st) && Outside(s.g, h, area)
    ensures FreeAction(h, v, st) == FreeAction(s.g, v, st)
    ensures FieldsOk(s0, s, ranks, area, base, FreeAction(s.g, v, st))
  {
    hide FieldsOk, Outside, SlotFreed;
    var n := v.node;
    FirstFreed(s0, s, h, ranks, area, base, st, n);
    var st1 := st.(refs := SlotFreed(s.g, st.refs, st.aux1, n), aux1 := st.aux1 - {n});
    SecondFreed(s0, s, h, ranks, area, base, st1, n);
  }

  /** While every node of the area is alive without the slots, the freeing action does not notice
      that links in the area are reversed. */
  lemma FreeIsLocal(s0: Table, s: Table, ranks: seq<nat>, area: set<nat>, base: multiset<nat>)
    requires Shape(s.g, ranks)
    ensures T.Local(FreeAction, s.g, ranks, area, (st: Fields) => FieldsOk(s0, s, ranks, area, base, st))
  {
    forall h: Nodes, v: Edge, st: Fields | v.node in area && In(s.g, v) && FieldsOk(s0, s, ranks, area, base, st)
                                           && T.Intact(s.g, ranks, area, h, v)
      ensures FreeAction(h, v, st) == FreeAction(s.g, v, st) && FieldsOk(s0, s, ranks, area, base, FreeAction(s.g, v, st))
    {
      assert Outside(s.g, h, area);
      FreeActionOk(s0, s, h, ranks, area, base, st, v);
    }
  }

  /** Without that condition it may notice: the slot of node 2 holds its parent, node 1, and nothing
      else does. With the THEN link of node 1 reversed, node 2 does not lose the reference it should. */
  lemma FreeSeesParents()
    ensures var g := map[1 := Node(0, Edge(2, false), ZERO), 2 := Node(1, ONE, ZERO)];
      var h := g[1 := Node(0, Edge(3, false), ZERO)];
      var st := Fields(map[0 := 4, 1 := 1, 2 := 2], map[2 := Edge(1, false)], map[]);
      && Shape(g, [0, 1]) && T.Intact(g, [0, 1], {0, 1, 2}, h, Edge(2, false))
      && Count(FreeAction(g, Edge(2, false), st).refs, 2) == 1
      && Count(FreeAction(h, Edge(2, false), st).refs, 2) == 2
  {
    var g := map[1 := Node(0, Edge(2, false), ZERO), 2 := Node(1, ONE, ZERO)];
    var h := g[1 := Node(0, Edge(3, false), ZERO)];
    var r := map[0 := 4, 1 := 1, 2 := 2];
    assert NodeOk(g, [0, 1], 1) && NodeOk(g, [0, 1], 2);
    T.ReachSplit(g, [0, 1], Edge(1, false));
    T.ReachSelf(g, [0, 1], Edge(2, false));
    var r1 := r[1 := 0];
    assert Released(g, r1, 2, TERMID - 1) == r1[2 := 1];
    assert Released(h, r1, 3, TERMID - 1) == r1;
    assert Released(g, r1[2 := 1], 0, TERMID - 1) == r1[2 := 1][0 := 3];
    assert Released(h, r1, 0, TERMID - 1) == r1[0 := 3];
  }

  /** Everything reachable from an edge that is alive is alive. */
  lemma {:induction false} ReachAlive(s: Table, ranks: seq<nat>, e: Edge, n: nat)
    requires TableOk(s, ranks) && Shape(s.g, ranks) && Alive(s.g, s.refs, e) && In(s.g, e) && n in T.Reach(s.g, ranks, e)
    ensures n in s.g ==> Count(s.refs, n) > 0
    decreases TERMID - Rank(s.g, ranks, e)
  {
    if e.node in s.g && n != e.node {
      T.LinkRanks(s.g, ranks, e);
      ChildAlive(s, ranks, e);
      var nd := s.g[e.node];
      if n in T.Reach(s.g, ranks, nd.thn) {
        ReachAlive(s, ranks, nd.thn, n);
      } else {
        ReachAlive(s, ranks, nd.els, n);
      }
    }
  }

  /** What was reachable from a live edge is still what is reachable. */
  lemma {:induction false} SameReach(s: Table, t: Table, ranks: seq<nat>, e: Edge)
    requires TableOk(s, ranks) && TableOk(t, ranks) && Shape(s.g, ranks) && Shape(t.g, ranks) && Kept(s, t)
    requires Alive(s.g, s.refs, e) && In(s.g, e) && In(t.g, e)
    ensures T.Reach(t.g, ranks, e) == T.Reach(s.g, ranks, e)
    decreases TERMID - Rank(s.g, ranks, e)
  {
    CoreKeys(s, ranks);
    CoreKeys(t, ranks);
    if e.node in s.g {
      KeptNode(s, t, ranks, e);
      T.LinkRanks(s.g, ranks, e);
      T.LinkRanks(t.g, ranks, e);
      ChildAlive(s, ranks, e);
      SameReach(s, t, ranks, s.g[e.node].thn);
      SameReach(s, t, ranks, s.g[e.node].els);
    }
  }

  /** What keeps f alive in s0 backs everything reachable from it. */
  lemma FieldsStart(s0: Table, s: Table, ranks: seq<nat>, f: Edge, base: multiset<nat>, st: Fields)
    requires TableOk(s0, ranks) && Kept(s0, s) && s0.ext <= base && Alive(s0.g, s0.refs, f)
    requires TableOk(s, ranks) && In(s.g, f) && Shape(s.g, ranks) && s == TableOf(s.g, s.den, base, st)
    ensures FieldsOk(s0, s, ranks, T.Reach(s.g, ranks, f), base, st)
  {
    hide RefsOk, Denotes;
    AliveIn(s0.g, s0.refs, f);
    assert Shape(s0.g, ranks);
    SameReach(s0, s, ranks, f);
    forall n | n in T.Reach(s.g, ranks, f) && n in s.g
      ensures Count(s0.refs, n) > 0
    {
      ReachAlive(s0, ranks, f, n);
      ReachIn(s0, s, ranks, f, n);
    }
    hide Shape;
    KeptLive(s0, s);
  }

  lemma {:induction false} ReachIn(s: Table, t: Table, ranks: seq<nat>, e: Edge, n: nat)
    requires TableOk(s, ranks) && TableOk(t, ranks) && Shape(s.g, ranks) && In(s.g, e) && n in T.Reach(s.g, ranks, e) && n in t.g
    ensures n in s.g
    decreases TERMID - Rank(s.g, ranks, e)
  {
    CoreKeys(s, ranks);
    CoreKeys(t, ranks);
    if e.node in s.g && n != e.node {
      T.LinkRanks(s.g, ranks, e);
      var nd := s.g[e.node];
      if n in T.Reach(s.g, ranks, nd.thn) {
        ReachIn(s, t, ranks, nd.thn, n);
      } else {
        ReachIn(s, t, ranks, nd.els, n);
      }
    }
  }

  lemma KeptLive(s: Table, t: Table)
    requires Kept(s, t)
    ensures FrozenKept(s.refs, t.refs) && LiveAgree(s.g, s.refs, t.g)
  {
  }

  // ---- which nodes the traversal meets

  /** Of the nodes unmarked in between, no child is marked any more. */
  ghost predicate Cleared(g: Nodes, mark: set<nat>, mark': set<nat>) {
    && mark' <= mark
    && (forall n {:trigger n in mark} :: n in mark && n !in mark' && n in g ==>
          g[n].thn.node !in mark' && g[n].els.node !in mark')
  }

  lemma ClearedTrans(g: Nodes, a: set<nat>, b: set<nat>, c: set<nat>)
    requires Cleared(g, a, b) && Cleared(g, b, c)
    ensures Cleared(g, a, c)
  {
  }

  lemma ClearedRoot(g: Nodes, mark: set<nat>, v: nat, mark': set<nat>)
    requires Cleared(g, mark - {v}, mark') && (v in g ==> g[v].thn.node !in mark' && g[v].els.node !in mark')
    ensures Cleared(g, mark, mark')
  {
    forall n | n in mark && n !in mark' && n in g
      ensures g[n].thn.node !in mark' && g[n].els.node !in mark'
    {
      assert n == v || n in mark - {v};
    }
  }

  /** From t to t', the nodes unmarked in between are those added to the log. */
  ghost predicate Unmarked(g: Nodes, t: T.Trace, t': T.Trace) {
    && Cleared(g, t.mark, t'.mark) && t.log <= t'.log
    && T.NodesOf(t'.log[|t.log|..]) == t.mark - t'.mark
  }

  lemma UnmarkedTrans(g: Nodes, a: T.Trace, b: T.Trace, c: T.Trace)
    requires Unmarked(g, a, b) && Unmarked(g, b, c)
    ensures Unmarked(g, a, c)
  {
    ClearedTrans(g, a.mark, b.mark, c.mark);
    T.LogJoin(b.log[|a.log|..], c.log[|b.log|..]);
    assert c.log[|a.log|..] == b.log[|a.log|..] + c.log[|b.log|..];
  }

  lemma UnmarkedRefl(g: Nodes, t: T.Trace)
    ensures Unmarked(g, t, t)
  {
    T.LogNone();
    assert t.log[|t.log|..] == [];
  }

  /** From a marked node down along marked nodes. */
  lemma {:induction false} VisitMarked(g: Nodes, ranks: seq<nat>, v: Edge, t: T.Trace)
    requires Shape(g, ranks) && In(g, v) && v.node in t.mark
    ensures Unmarked(g, t, T.Visit(g, ranks, v, t, false)) && v.node !in T.Visit(g, ranks, v, t, false).mark
    decreases TERMID - Rank(g, ranks, v), 1
  {
    hide Cleared, Unmarked;
    var t1 := T.Enter(v, t, false);
    EnterMarked(v, t);
    if v.node in g {
      T.LinkRanks(g, ranks, v);
      VisitMarkedKid(g, ranks, v, t1, false);
      var t2 := T.VisitThen(g, ranks, v, t1, false);
      StaysUnmarked(g, t1, t2, v.node, v.node);
      VisitMarkedKid(g, ranks, v, t2, true);
      var t3 := T.VisitElse(g, ranks, v, t2, false);
      StaysUnmarked(g, t2, t3, v.node, g[v.node].thn.node);
      UnmarkedTrans(g, t1, t2, t3);
      EnteredOk(g, v, t, t3);
    } else {
      UnmarkedRefl(g, t1);
      EnteredOk(g, v, t, t1);
    }
  }

  lemma EnterMarked(v: Edge, t: T.Trace)
    requires v.node in t.mark
    ensures T.Enter(v, t, false) == T.Trace(t.mark - {v.node}, t.log + [v])
  {
  }

  lemma StaysUnmarked(g: Nodes, t: T.Trace, t': T.Trace, n: nat, k: nat)
    requires Unmarked(g, t, t')
    ensures n !in t.mark ==> n !in t'.mark
    ensures k !in t.mark ==> k !in t'.mark
  {
  }

  lemma EnteredOk(g: Nodes, v: Edge, t: T.Trace, t': T.Trace)
    requires v.node in t.mark && Unmarked(g, T.Trace(t.mark - {v.node}, t.log + [v]), t')
    requires v.node in g ==> g[v.node].thn.node !in t'.mark && g[v.node].els.node !in t'.mark
    ensures Unmarked(g, t, t')
  {
    ClearedRoot(g, t.mark, v.node, t'.mark);
    var k := |t.log|;
    T.LogJoin([v], t'.log[k + 1..]);
    T.LogOne(v);
    assert t'.log[k..] == [v] + t'.log[k + 1..];
  }

  lemma VisitMarkedKid(g: Nodes, ranks: seq<nat>, v: Edge, t: T.Trace, els: bool)
    requires Shape(g, ranks) && v.node in g && v.node !in t.mark
    ensures var t' := if els then T.VisitElse(g, ranks, v, t, false) else T.VisitThen(g, ranks, v, t, false);
      Unmarked(g, t, t') && (if els then g[v.node].els.node else g[v.node].thn.node) !in t'.mark
    decreases TERMID - Rank(g, ranks, v), 0
  {
    hide Unmarked;
    T.LinkRanks(g, ranks, v);
    UnmarkedRefl(g, t);
    var kid := if els then g[v.node].els else g[v.node].thn;
    if kid.node in t.mark {
      VisitMarked(g, ranks, kid, t);
    }
  }

  /** Nothing marked is left over when the root has been cleared. */
  lemma {:induction false} NoneLeft(g: Nodes, ranks: seq<nat>, mark: set<nat>, mark': set<nat>, root: nat, n: nat)
    requires Shape(g, ranks) && Rooted(g, mark, root) && Cleared(g, mark, mark') && root !in mark'
    ensures n !in mark'
    decreases Rank(g, ranks, Edge(n, false))
  {
    if n in mark' {
      assert ParentIn(g, mark, n);
      var p :| p in mark && p in g && Hits(g[p], n) > 0;
      assert NodeOk(g, ranks, p);
      NoneLeft(g, ranks, mark, mark', root, p);
    }
  }

  lemma AllVisited(g: Nodes, ranks: seq<nat>, f: Edge, mark: set<nat>)
    requires Shape(g, ranks) && In(g, f) && f.node in mark && Rooted(g, mark, f.node)
    ensures var t := T.Visit(g, ranks, f, T.Trace(mark, []), false);
      t.mark == {} && T.NodesOf(t.log) == mark
  {
    VisitMarked(g, ranks, f, T.Trace(mark, []));
    var t := T.Visit(g, ranks, f, T.Trace(mark, []), false);
    forall n: nat
      ensures n !in t.mark
    {
      NoneLeft(g, ranks, mark, t.mark, f.node, n);
    }
    assert t.mark == {};
    assert t.log[0..] == t.log;
  }

  /** The slots left are those of nodes not met. */
  lemma {:induction false} SlotsLeft(g: Nodes, st: Fields, log: seq<Edge>)
    ensures var st' := T.Replay(FreeAction, g, st, log);
      st'.aux1.Keys == st.aux1.Keys - T.NodesOf(log) && st'.aux2.Keys == st.aux2.Keys - T.NodesOf(log)
    decreases |log|
  {
    if log == [] {
      T.LogNone();
    } else {
      var k := |log| - 1;
      SlotsLeft(g, st, log[..k]);
      T.LogJoin(log[..k], [log[k]]);
      T.LogOne(log[k]);
      assert log == log[..k] + [log[k]];
    }
  }

  lemma AllGone(g: Nodes, base: multiset<nat>, a: Aux, ext: multiset<nat>, st: Fields, log: seq<Edge>, st': Fields)
    requires Covers(ext, base, a) && st.aux1 == a.aux1 && st.aux2 == a.aux2 && T.NodesOf(log) == a.mark
    requires st' == T.Replay(FreeAction, g, st, log)
    ensures st'.aux1 == map[] && st'.aux2 == map[] && base + Held(st'.aux1) + Held(st'.aux2) == base
  {
    SlotsLeft(g, st, log);
    assert st'.aux1.Keys == {} && st'.aux2.Keys == {};
    assert st'.aux1 == map[] && st'.aux2 == map[];
  }

  lemma CoversTable(s: Table, base: multiset<nat>, a: Aux)
    requires Covers(s.ext, base, a)
    ensures s == TableOf(s.g, s.den, base, Fields(s.refs, a.aux1, a.aux2))
  {
  }

  /** bdd_traverse_pre with the freeing action, for slots under a root that something besides the slots
      keeps alive, as it was in table s0: all slots and all marks are gone. */
  method FreeAll(m: Manager, sc: Scratch, f: Edge, ghost base: multiset<nat>, ghost s0: Table)
    requires m.Valid() && Covers(m.ext, base, sc.Val()) && f.node in sc.mark && In(m.nodes, f)
    requires Rooted(m.nodes, sc.mark, f.node)
    requires TableOk(s0, m.ranks) && Kept(s0, m.Tab()) && s0.ext <= base && Alive(s0.g, s0.refs, f)
    modifies m`refs, m`ext, sc
    ensures m.Valid() && FrozenKept(old(m.refs), m.refs) && m.ext == base
    ensures sc.Val() == Aux({}, map[], map[])
  {
    hide TableOk, CacheOk, Inverse, Covers, Rooted, Shape, Kept, Held, FieldsOk, Tables.Nodes, T.Local, T.Reach, T.Visit;
    ghost var s, ranks, a := m.Tab(), m.ranks, sc.Val();
    ShapeOf(s, ranks);
    ghost var st, area := Fields(m.refs, sc.aux1, sc.aux2), T.Reach(s.g, ranks, f);
    CoversTable(s, base, a);
    FieldsStart(s0, s, ranks, f, base, st);
    FreeIsLocal(s0, s, ranks, area, base);
    AllVisited(s.g, ranks, f, a.mark);
    var st' := Walk(m.nodes, sc.mark, f, Fields(m.refs, sc.aux1, sc.aux2), ranks,
                    (x: Fields) => FieldsOk(s0, s, ranks, area, base, x));
    AllGone(s.g, base, a, s.ext, st, T.Visit(s.g, ranks, f, T.Trace(a.mark, []), false).log, st');
    FieldsEnd(s0, s, ranks, area, base, st');
    m.refs, m.ext := st'.refs, base;
    sc.mark, sc.aux1, sc.aux2 := {}, st'.aux1, st'.aux2;
  }

  lemma ShapeOf(s: Table, ranks: seq<nat>)
    requires TableOk(s, ranks)
    ensures Shape(s.g, ranks)
  {
  }

  lemma FieldsEnd(s0: Table, s: Table, ranks: seq<nat>, area: set<nat>, base: multiset<nat>, st: Fields)
    requires FieldsOk(s0, s, ranks, area, base, st)
    ensures TableOk(TableOf(s.g, s.den, base, st), ranks) && FrozenKept(s.refs, st.refs)
  {
  }

  /** The traversal in the memory of the nodes. */
  method Walk(links: Nodes, mark: set<nat>, f: Edge, st: Fields, ghost ranks: seq<nat>, ghost inv: Fields -> bool)
    returns (st': Fields)
    requires Shape(links, ranks) && In(links, f) && inv(st)
    requires T.Local(FreeAction, links, ranks, T.Reach(links, ranks, f), inv)
    ensures st' == T.Replay(FreeAction, links, st, T.Visit(links, ranks, f, T.Trace(mark, []), false).log) && inv(st')
  {
    hide Shape, T.Local, T.Replay, T.Visit, T.Reach;
    FreshAddress(links);
    var void: nat :| void !in links && void != 0;
    var mem := new T.Memory(links, Edge(void, false), st);
    mem.mark := mark;
    T.Traverse(mem, f, FreeAction, false, ranks, inv);
    assert mem.log[0..] == mem.log;
    st' := mem.acc;
  }
}
