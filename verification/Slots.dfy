/** Results remembered per node during a recursion over a graph: one mark bit and two auxiliary
    fields per node, filled in below-first and given back afterwards. */
module Slots {
  import opened Functions
  import opened Graph
  import opened RefCount
  import opened State
  import opened Tables
  import opened IteOps
  import opened ConstrainOps
  import opened Exists
  import opened Compose

  /** What the fields of a node are to hold: its function quantified existentially (first field)
      and universally (second field) over x, or its function under a substitution (first field
      only). */
  datatype Spec = Quantifying(x: set<nat>) | Substituting(sub: Substitution)

  ghost function First(spec: Spec, f: Fn): Fn {
    match spec
    case Quantifying(x) => Smooth(f, x)
    case Substituting(sub) => Subst(f, sub)
  }

  /** The mark bits and the two auxiliary fields of the nodes. */
  datatype Aux = Aux(mark: set<nat>, aux1: map<nat, Edge>, aux2: map<nat, Edge>)

  class Scratch {
    var mark: set<nat>
    var aux1: map<nat, Edge>
    var aux2: map<nat, Edge>

    function Val(): Aux
      reads this
    {
      Aux(mark, aux1, aux2)
    }

    constructor ()
      ensures Val() == Aux({}, map[], map[])
    {
      mark, aux1, aux2 := {}, map[], map[];
    }
  }

  ghost function Pick(a: map<nat, Edge>): nat
    requires a != map[]
    ensures Pick(a) in a
  {
    assert a.Keys != {};
    var k :| k in a;
    k
  }

  /** The references held by a column of auxiliary fields. */
  ghost function Held(a: map<nat, Edge>): multiset<nat>
    decreases |a|
  {
    if a == map[] then multiset{}
    else
      var k := Pick(a);
      assert |a - {k}| < |a| by { Smaller(a, k); }
      Held(a - {k}) + multiset{a[k].node}
  }

  lemma Smaller(a: map<nat, Edge>, k: nat)
    requires k in a
    ensures |a - {k}| < |a|
  {
    assert a == (a - {k})[k := a[k]];
  }

  lemma HeldStep(a: map<nat, Edge>)
    requires a != map[]
    ensures Held(a) == Held(a - {Pick(a)}) + multiset{a[Pick(a)].node}
  {
  }

  lemma {:induction false} HeldRemove(a: map<nat, Edge>, k: nat)
    requires k in a
    ensures Held(a) == Held(a - {k}) + multiset{a[k].node}
    decreases |a|
  {
    hide Held, Pick;
    var p := Pick(a);
    HeldStep(a);
    if p != k {
      Smaller(a, p);
      Smaller(a, k);
      HeldRemove(a - {p}, k);
      HeldRemove(a - {k}, p);
      assert a - {p} - {k} == a - {k} - {p};
      Commute(Held(a - {k} - {p}), multiset{a[k].node}, multiset{a[p].node});
    }
  }

  lemma HeldAdd(a: map<nat, Edge>, k: nat, e: Edge)
    requires k !in a
    ensures Held(a[k := e]) == Held(a) + multiset{e.node}
  {
    HeldRemove(a[k := e], k);
    assert a[k := e] - {k} == a;
  }

  /** The slots of node n hold the results for its function. */
  ghost predicate NodeMemo(s: Table, spec: Spec, a: Aux, n: nat) {
    && n in a.aux1 && n in a.mark
    && Alive(s.g, s.refs, Edge(n, false)) && In(s.g, a.aux1[n])
    && Sem(s.den, a.aux1[n]) == First(spec, At(s.den, n))
    && (spec.Quantifying? ==>
          n in a.aux2 && In(s.g, a.aux2[n]) && Sem(s.den, a.aux2[n]) == Consensus(At(s.den, n), spec.x))
  }

  /** The memo: right for every node it covers, and holding one reference for every slot. */
  ghost predicate Memo(s: Table, base: multiset<nat>, spec: Spec, a: Aux) {
    && a.aux2.Keys == (if spec.Quantifying? then a.aux1.Keys else {})
    && s.ext == base + Held(a.aux1) + Held(a.aux2)
    && (forall n {:trigger NodeMemo(s, spec, a, n)} :: n in a.aux1 ==> NodeMemo(s, spec, a, n))
  }

  lemma MemoSlotHeld(s: Table, base: multiset<nat>, spec: Spec, a: Aux, n: nat)
    requires Memo(s, base, spec, a) && n in a.aux1
    ensures s.ext[a.aux1[n].node] > 0 && (spec.Quantifying? ==> n in a.aux2 && s.ext[a.aux2[n].node] > 0)
    ensures NodeMemo(s, spec, a, n)
  {
    HeldRemove(a.aux1, n);
    if spec.Quantifying? {
      HeldRemove(a.aux2, n);
    }
    assert NodeMemo(s, spec, a, n);
  }

  lemma MemoKept(s: Table, t: Table, ranks: seq<nat>, base: multiset<nat>, base': multiset<nat>, spec: Spec, a: Aux)
    requires TableOk(s, ranks) && TableOk(t, ranks) && Kept(s, t) && Memo(s, base, spec, a)
    requires t.ext == base' + Held(a.aux1) + Held(a.aux2)
    ensures Memo(t, base', spec, a)
  {
    hide TableOk, Kept, Held;
    forall n | n in a.aux1
      ensures NodeMemo(t, spec, a, n)
    {
      MemoSlotHeld(s, base, spec, a, n);
      HeldAlive(s, ranks, a.aux1[n].node);
      KeptEdge(s, t, ranks, Edge(n, false));
      KeptEdge(s, t, ranks, a.aux1[n]);
      if spec.Quantifying? {
        HeldAlive(s, ranks, a.aux2[n].node);
        KeptEdge(s, t, ranks, a.aux2[n]);
      }
    }
  }

  lemma MoreExt(base: multiset<nat>, h1: multiset<nat>, h2: multiset<nat>, e: multiset<nat>)
    ensures base + h1 + h2 + e == base + e + h1 + h2
  {
  }

  /** A node's two results enter the memo. */
  lemma MemoAdd(s: Table, base: multiset<nat>, x: set<nat>, a: Aux, n: nat, R1: Edge, R2: Edge)
    requires Memo(s, base + multiset{R1.node} + multiset{R2.node}, Quantifying(x), a) && n !in a.aux1 && n in a.mark
    requires Alive(s.g, s.refs, Edge(n, false)) && In(s.g, R1) && In(s.g, R2)
    requires Sem(s.den, R1) == Smooth(At(s.den, n), x) && Sem(s.den, R2) == Consensus(At(s.den, n), x)
    ensures Memo(s, base, Quantifying(x), Aux(a.mark, a.aux1[n := R1], a.aux2[n := R2]))
  {
    hide Held, Smooth, Consensus;
    var a' := Aux(a.mark, a.aux1[n := R1], a.aux2[n := R2]);
    HeldAdd(a.aux1, n, R1);
    HeldAdd(a.aux2, n, R2);
    MemoExt(base, Held(a.aux1), Held(a.aux2), R1.node, R2.node);
    forall k | k in a'.aux1
      ensures NodeMemo(s, Quantifying(x), a', k)
    {
      if k != n {
        assert NodeMemo(s, Quantifying(x), a, k);
      }
    }
  }

  /** A node's only result enters the memo. */
  lemma MemoAddOne(s: Table, base: multiset<nat>, sub: Substitution, a: Aux, n: nat, R: Edge)
    requires Memo(s, base + multiset{R.node}, Substituting(sub), a) && n !in a.aux1 && n in a.mark
    requires Alive(s.g, s.refs, Edge(n, false)) && In(s.g, R) && Sem(s.den, R) == Subst(At(s.den, n), sub)
    ensures Memo(s, base, Substituting(sub), Aux(a.mark, a.aux1[n := R], a.aux2))
  {
    hide Held, Subst;
    var a' := Aux(a.mark, a.aux1[n := R], a.aux2);
    HeldAdd(a.aux1, n, R);
    MemoExtOne(base, Held(a.aux1), Held(a.aux2), R.node);
    forall k | k in a'.aux1
      ensures NodeMemo(s, Substituting(sub), a', k)
    {
      if k != n {
        assert NodeMemo(s, Substituting(sub), a, k);
      }
    }
  }

  lemma MemoExtOne(base: multiset<nat>, h1: multiset<nat>, h2: multiset<nat>, r: nat)
    ensures base + multiset{r} + h1 + h2 == base + (h1 + multiset{r}) + h2
  {
  }

  lemma MemoExt(base: multiset<nat>, h1: multiset<nat>, h2: multiset<nat>, r1: nat, r2: nat)
    ensures base + multiset{r1} + multiset{r2} + h1 + h2 == base + (h1 + multiset{r1}) + (h2 + multiset{r2})
  {
  }

  lemma MemoMark(s: Table, base: multiset<nat>, spec: Spec, a: Aux, n: nat)
    requires Memo(s, base, spec, a)
    ensures Memo(s, base, spec, a.(mark := a.mark + {n}))
  {
    forall k | k in a.aux1
      ensures NodeMemo(s, spec, a.(mark := a.mark + {n}), k)
    {
      assert NodeMemo(s, spec, a, k);
    }
  }

  /** bdd_ite with reordering off on an already alive triple, after which two references are given up. */
  method IteTwo(m: Manager, t: Triple, R1: Edge, R2: Edge, ghost s: Table) returns (R: Edge)
    requires m.Valid() && AliveT(m.Tab(), t) && TableOk(s, m.ranks) && Kept(s, m.Tab())
    requires m.ext == s.ext + multiset{R1.node} + multiset{R2.node}
    modifies m
    ensures m.Valid() && m.SameOrder(old(m.ranks), old(m.space), old(m.groups)) && m.reorder == old(m.reorder)
    ensures Delivers(s, m.Tab(), R, old(Meaning(m.den, t)))
  {
    hide TableOk, CacheOk, Inverse, Kept, Meaning;
    ghost var s1 := m.Tab();
    R := IteAux(m, t);
    ghost var s2 := m.Tab();
    KeptTrans(s, s1, s2);
    FreeTwo(m, R1, R2, s.ext, multiset{R.node});
    KeptAfterFree(s, s2, m.Tab(), m.ranks);
  }

  lemma MemoKeys(s: Table, base: multiset<nat>, spec: Spec, a: Aux)
    requires Memo(s, base, spec, a)
    ensures a.aux2.Keys == if spec.Quantifying? then a.aux1.Keys else {}
  {
  }

  lemma MemoBase(s: Table, t: Table, base: multiset<nat>, spec: Spec, a: Aux, e: multiset<nat>)
    requires Memo(s, base, spec, a) && t.ext == s.ext + e
    ensures t.ext == base + e + Held(a.aux1) + Held(a.aux2)
  {
    MoreExt(base, Held(a.aux1), Held(a.aux2), e);
  }

  /** What bdd_quantify_aux may assume of the memo: nodes marked but not finished are alive and
      rank above. */
  ghost predicate Ready(s: Table, ranks: seq<nat>, a: Aux, r: nat) {
    forall n {:trigger n in a.mark} :: n in a.mark && n !in a.aux1 ==>
      Alive(s.g, s.refs, Edge(n, false)) && Rank(s.g, ranks, Edge(n, false)) < r
  }

  /** The memo has grown, and no new node is open. */
  ghost predicate Grew(a: Aux, a': Aux) {
    && a.aux1.Keys <= a'.aux1.Keys && a.mark <= a'.mark
    && a'.mark - a'.aux1.Keys == a.mark - a.aux1.Keys
  }

  /** Below f, the open nodes are those from before and f. */
  lemma ReadyBelow(s: Table, ranks: seq<nat>, a: Aux, f: Edge, kid: Edge)
    requires TableOk(s, ranks) && Ready(s, ranks, a, Rank(s.g, ranks, f) + 1) && f.node in s.g
    requires Alive(s.g, s.refs, f) && (kid == s.g[f.node].thn || kid == s.g[f.node].els)
    ensures In(s.g, kid) && Rank(s.g, ranks, f) < Rank(s.g, ranks, kid) <= TERMID
    ensures Ready(s, ranks, a, Rank(s.g, ranks, kid)) && Alive(s.g, s.refs, kid)
    ensures kid.node in a.mark ==> kid.node in a.aux1
  {
    EdgeChildRanks(s, ranks, f);
    ChildCounted(s.g, s.refs, s.ext, Live(s.g, s.refs), f.node);
    assert kid.node in a.mark && kid.node !in a.aux1 ==> Rank(s.g, ranks, Edge(kid.node, false)) < Rank(s.g, ranks, kid);
  }

  lemma ReadyEnter(s: Table, ranks: seq<nat>, a: Aux, f: Edge)
    requires Ready(s, ranks, a, Rank(s.g, ranks, f)) && Alive(s.g, s.refs, f)
    ensures Ready(s, ranks, a.(mark := a.mark + {f.node}), Rank(s.g, ranks, f) + 1)
  {
  }

  lemma ReadyKept(s: Table, t: Table, ranks: seq<nat>, a: Aux, a': Aux, r: nat)
    requires TableOk(s, ranks) && TableOk(t, ranks) && Kept(s, t) && Ready(s, ranks, a, r)
    requires Grew(a, a')
    ensures Ready(t, ranks, a', r)
  {
    forall n | n in a'.mark && n !in a'.aux1
      ensures Alive(t.g, t.refs, Edge(n, false)) && Rank(t.g, ranks, Edge(n, false)) < r
    {
      assert n in a'.mark - a'.aux1.Keys;
      assert n in a.mark && n !in a.aux1;
      KeptEdge(s, t, ranks, Edge(n, false));
    }
  }

  lemma GrewTrans(a: Aux, b: Aux, c: Aux)
    requires Grew(a, b) && Grew(b, c)
    ensures Grew(a, c)
  {
  }

  /** A node entered and finished leaves no new open node. */
  lemma GrewDone(a: Aux, b: Aux, c: Aux, n: nat)
    requires n !in a.mark && n !in b.aux1 && c.mark == b.mark && c.aux1.Keys == b.aux1.Keys + {n}
    requires Grew(a.(mark := a.mark + {n}), b) && a.aux1.Keys <= a.mark
    ensures Grew(a, c)
  {
    assert b.mark - b.aux1.Keys == (a.mark + {n}) - a.aux1.Keys;
    assert c.mark - c.aux1.Keys == (b.mark - b.aux1.Keys) - {n};
  }

  lemma MemoMarked(s: Table, base: multiset<nat>, spec: Spec, a: Aux)
    requires Memo(s, base, spec, a)
    ensures a.aux1.Keys <= a.mark
  {
    forall n | n in a.aux1
      ensures n in a.mark
    {
      assert NodeMemo(s, spec, a, n);
    }
  }

  ghost predicate ParentIn(g: Nodes, mark: set<nat>, n: nat) {
    exists p {:trigger p in mark} :: p in mark && p in g && Hits(g[p], n) > 0
  }

  /** Every marked node but the root has a marked parent. */
  ghost predicate Rooted(g: Nodes, mark: set<nat>, root: nat) {
    forall n {:trigger ParentIn(g, mark, n)} {:trigger n in mark} :: n in mark ==> n == root || ParentIn(g, mark, n)
  }

  lemma RootedKept(s: Table, t: Table, ranks: seq<nat>, base: multiset<nat>, spec: Spec, a: Aux, r: nat, root: nat)
    requires Kept(s, t) && Memo(s, base, spec, a) && Ready(s, ranks, a, r) && Rooted(s.g, a.mark, root)
    requires TableOk(s, ranks)
    ensures Rooted(t.g, a.mark, root)
  {
    forall n | n in a.mark && n != root
      ensures ParentIn(t.g, a.mark, n)
    {
      assert ParentIn(s.g, a.mark, n);
      var p :| p in a.mark && p in s.g && Hits(s.g[p], n) > 0;
      if p in a.aux1 {
        assert NodeMemo(s, spec, a, p);
      }
      assert Count(s.refs, p) > 0;
    }
  }

  lemma RootedChild(g: Nodes, mark: set<nat>, root: nat, f: nat, kid: nat)
    requires Rooted(g, mark, root) && f in mark && f in g && Hits(g[f], kid) > 0
    ensures Rooted(g, mark + {kid}, root)
  {
    forall n | n in mark + {kid} && n != root
      ensures ParentIn(g, mark + {kid}, n)
    {
      var p := f;
      if n in mark && n != kid {
        assert ParentIn(g, mark, n);
        p :| p in mark && p in g && Hits(g[p], n) > 0;
      }
      assert p in mark + {kid};
    }
  }

  lemma GrewRefl(a: Aux)
    ensures Grew(a, a)
  {
  }

  lemma NodeRanks(s: Table, ranks: seq<nat>, f: Edge)
    requires TableOk(s, ranks) && f.node in s.g
    ensures s.g[f.node].varid < |ranks| && ranks[s.g[f.node].varid] == Rank(s.g, ranks, f)
    ensures Rank(s.g, ranks, f) < Rank(s.g, ranks, s.g[f.node].thn)
    ensures Rank(s.g, ranks, f) < Rank(s.g, ranks, s.g[f.node].els)
  {
    assert NodeOk(s.g, ranks, f.node);
  }

  lemma KeptNode(s: Table, t: Table, ranks: seq<nat>, f: Edge)
    requires TableOk(s, ranks) && TableOk(t, ranks) && Kept(s, t) && Alive(s.g, s.refs, f) && f.node in s.g
    ensures f.node in t.g && t.g[f.node] == s.g[f.node] && Alive(t.g, t.refs, f)
    ensures Rank(t.g, ranks, f) == Rank(s.g, ranks, f)
    ensures Rank(t.g, ranks, s.g[f.node].els) == Rank(s.g, ranks, s.g[f.node].els)
  {
    KeptEdge(s, t, ranks, f);
    assert NodeOk(s.g, ranks, f.node);
    ChildCounted(s.g, s.refs, s.ext, Live(s.g, s.refs), f.node);
    KeptEdge(s, t, ranks, s.g[f.node].els);
  }

  /** A node that is open stays open, one that is finished stays finished. */
  lemma GrewKeeps(a: Aux, b: Aux, c: Aux, n: nat, k: nat)
    requires Grew(a, b) && Grew(b, c) && n in a.mark && n !in a.aux1
    ensures n in b.mark && n !in b.aux1 && n in c.mark && n !in c.aux1 && (k in b.aux1 ==> k in c.aux1)
  {
    assert n in a.mark - a.aux1.Keys;
  }

  lemma ChildAlive(s: Table, ranks: seq<nat>, f: Edge)
    requires TableOk(s, ranks) && Alive(s.g, s.refs, f) && f.node in s.g
    ensures Alive(s.g, s.refs, s.g[f.node].thn) && Alive(s.g, s.refs, s.g[f.node].els)
  {
    assert NodeOk(s.g, ranks, f.node);
    ChildCounted(s.g, s.refs, s.ext, Live(s.g, s.refs), f.node);
  }

  lemma KeptKids(s: Table, t: Table, ranks: seq<nat>, f: Edge)
    requires TableOk(s, ranks) && TableOk(t, ranks) && Kept(s, t) && Alive(s.g, s.refs, f) && f.node in s.g
    ensures f.node in t.g && t.g[f.node] == s.g[f.node] && Alive(t.g, t.refs, f)
    ensures Sem(t.den, s.g[f.node].thn) == Sem(s.den, s.g[f.node].thn)
    ensures Sem(t.den, s.g[f.node].els) == Sem(s.den, s.g[f.node].els)
    ensures At(t.den, f.node) == At(s.den, f.node)
  {
    ChildAlive(s, ranks, f);
    KeptNode(s, t, ranks, f);
    KeptEdge(s, t, ranks, s.g[f.node].thn);
    KeptEdge(s, t, ranks, s.g[f.node].els);
    KeptEdge(s, t, ranks, Edge(f.node, false));
  }

  /** bdd_create_var: the positive literal of a variable. */
  method CreateVar(m: Manager, v: nat) returns (R: Edge)
    requires m.Valid() && v < |m.ranks|
    modifies m
    ensures m.Valid() && m.SameOrder(old(m.ranks), old(m.space), old(m.groups)) && m.reorder == old(m.reorder)
    ensures Delivers(old(m.Tab()), m.Tab(), R, Shannon(v, True(), iset{}))
  {
    hide CacheOk, Inverse, Kept;
    CoreKeys(m.Tab(), m.ranks);
    ConstSem(m.den);
    assert Rank(m.nodes, m.ranks, ONE) == TERMID && Rank(m.nodes, m.ranks, ZERO) == TERMID;
    R := CreateNode(m, v, ONE, ZERO);
  }

  lemma DropMiddle(base: multiset<nat>, v: nat, r1: nat, r2: nat, h: multiset<nat>)
    ensures var y := base + multiset{v} + multiset{r1} + multiset{r2} + h;
      y[v] > 0 && y - multiset{v} == base + multiset{r1} + multiset{r2} + h
  {
  }

  lemma BaseGrows(base: multiset<nat>, r1: multiset<nat>, r2: multiset<nat>, h1: multiset<nat>, h2: multiset<nat>)
    ensures base + h1 + h2 <= base + r1 + r2 + h1 + h2
  {
  }

  /** The slots cover exactly the marked nodes and hold their references beside base. */
  ghost predicate Covers(ext: multiset<nat>, base: multiset<nat>, a: Aux) {
    && a.aux1.Keys == a.mark && a.aux2.Keys <= a.mark
    && ext == base + Held(a.aux1) + Held(a.aux2)
  }

  lemma CoversMemo(s: Table, ranks: seq<nat>, base: multiset<nat>, spec: Spec, a: Aux, e: multiset<nat>, ext: multiset<nat>)
    requires Memo(s, base, spec, a) && a.mark - a.aux1.Keys == {} && ext == s.ext + e
    ensures Covers(ext, base + e, a)
  {
    MemoMarked(s, base, spec, a);
    forall n | n in a.mark
      ensures n in a.aux1
    {
      assert n !in a.mark - a.aux1.Keys;
    }
    assert a.mark == a.aux1.Keys;
    MoreExt(base, Held(a.aux1), Held(a.aux2), e);
  }

  lemma EmptyMemo(s: Table, ranks: seq<nat>, spec: Spec, r: nat, n: nat)
    ensures Memo(s, s.ext, spec, Aux({}, map[], map[])) && Ready(s, ranks, Aux({}, map[], map[]), r)
    ensures Rooted(s.g, {} + {n}, n)
  {
    assert s.ext + multiset{} + multiset{} == s.ext;
  }

  lemma GrewClosed(a: Aux, b: Aux)
    requires Grew(a, b) && a.mark == {}
    ensures b.mark - b.aux1.Keys == {}
  {
  }
}
