/** Saturating reference counts: what a count means, and the effect of every counting step. */
module RefCount {
  import opened Graph

  /** The count at which a node is frozen: 14 bits, all ones. */
  const MAXREF := 16383

  type Refs = map<nat, nat>

  function Count(refs: Refs, n: nat): nat {
    if n in refs then refs[n] else 0
  }

  /** BDD_INCR_REF and BDD_DECR_REF on a single counter. */
  function Incr(c: nat): nat {
    if c < MAXREF then c + 1 else c
  }

  function Decr(c: nat): nat {
    if 0 < c < MAXREF then c - 1 else c
  }

  ghost function Live(g: Nodes, refs: Refs): set<nat> {
    set n | n in g && Count(refs, n) > 0
  }

  ghost function ThenParents(g: Nodes, parents: set<nat>, n: nat): set<nat> {
    set p | p in parents && p in g && g[p].thn.node == n
  }

  ghost function ElseParents(g: Nodes, parents: set<nat>, n: nat): set<nat> {
    set p | p in parents && p in g && g[p].els.node == n
  }

  /** The number of edges into n from the given parents. */
  ghost function InEdges(g: Nodes, parents: set<nat>, n: nat): nat {
    |ThenParents(g, parents, n)| + |ElseParents(g, parents, n)|
  }

  /** The count of n, unless saturated, is the number of external references plus the number of
      edges from the given parents; debt is what an interrupted step still has to add. */
  ghost predicate Balanced(g: Nodes, refs: Refs, ext: multiset<nat>, debt: multiset<nat>,
                           parents: set<nat>, n: nat)
  {
    Count(refs, n) <= MAXREF &&
    (Count(refs, n) < MAXREF ==> Count(refs, n) + debt[n] == ext[n] + InEdges(g, parents, n))
  }

  ghost predicate RefsOk(g: Nodes, refs: Refs, ext: multiset<nat>, debt: multiset<nat>,
                         parents: set<nat>)
  {
    forall n: nat {:trigger Balanced(g, refs, ext, debt, parents, n)} ::
      Balanced(g, refs, ext, debt, parents, n)
  }

  ghost function Hits(nd: Node, n: nat): nat {
    (if nd.thn.node == n then 1 else 0) + (if nd.els.node == n then 1 else 0)
  }

  /** The two graphs hold the same nodes at the addresses of s. */
  ghost predicate Agree(g: Nodes, g': Nodes, s: set<nat>) {
    forall q {:trigger q in s} :: q in s ==> (q in g <==> q in g') && (q in g ==> g[q] == g'[q])
  }

  lemma SameParents(g: Nodes, parents: set<nat>, g': Nodes, n: nat)
    requires Agree(g, g', parents)
    ensures ThenParents(g, parents, n) == ThenParents(g', parents, n)
    ensures ElseParents(g, parents, n) == ElseParents(g', parents, n)
    ensures InEdges(g', parents, n) == InEdges(g, parents, n)
  {
  }

  /** A new parent adds its own two edges. */
  lemma AddParent(g: Nodes, parents: set<nat>, p: nat, n: nat)
    requires p !in parents && p in g
    ensures InEdges(g, parents + {p}, n) == InEdges(g, parents, n) + Hits(g[p], n)
  {
    var t, t' := ThenParents(g, parents, n), ThenParents(g, parents + {p}, n);
    var e, e' := ElseParents(g, parents, n), ElseParents(g, parents + {p}, n);
    assert t' == if g[p].thn.node == n then t + {p} else t;
    assert e' == if g[p].els.node == n then e + {p} else e;
  }

  /** A parent contributes at least its own edges. */
  lemma ParentCounts(g: Nodes, parents: set<nat>, p: nat, n: nat)
    requires p in parents && p in g
    ensures InEdges(g, parents, n) >= Hits(g[p], n)
  {
    assert parents == (parents - {p}) + {p};
    AddParent(g, parents - {p}, p, n);
  }

  lemma HasParent(g: Nodes, parents: set<nat>, n: nat) returns (p: nat)
    requires InEdges(g, parents, n) > 0
    ensures p in parents && p in g && Hits(g[p], n) > 0
  {
    if ThenParents(g, parents, n) != {} {
      p :| p in ThenParents(g, parents, n);
    } else {
      assert ElseParents(g, parents, n) != {};
      p :| p in ElseParents(g, parents, n);
    }
  }

  ghost function Kids(nd: Node): multiset<nat> {
    multiset{nd.thn.node, nd.els.node}
  }

  lemma KidsAreHits(nd: Node, n: nat)
    ensures Kids(nd)[n] == Hits(nd, n)
  {
  }

  lemma KidsCancel(ext: multiset<nat>, nd: Node)
    ensures (ext + Kids(nd))[nd.thn.node] > 0
    ensures (ext + Kids(nd) - multiset{nd.thn.node})[nd.els.node] > 0
    ensures ext + Kids(nd) - multiset{nd.thn.node} - multiset{nd.els.node} == ext
  {
  }

  lemma KidsSpent(nd: Node)
    ensures Kids(nd)[nd.thn.node] > 0
    ensures (Kids(nd) - multiset{nd.thn.node})[nd.els.node] > 0
    ensures Kids(nd) - multiset{nd.thn.node} - multiset{nd.els.node} == multiset{}
  {
  }

  lemma IncrOk(g: Nodes, refs: Refs, ext: multiset<nat>, debt: multiset<nat>, parents: set<nat>,
               n: nat)
    requires RefsOk(g, refs, ext, debt, parents)
    ensures RefsOk(g, refs[n := Incr(Count(refs, n))], ext + multiset{n}, debt, parents)
  {
    var refs' := refs[n := Incr(Count(refs, n))];
    forall k: nat
      ensures Balanced(g, refs', ext + multiset{n}, debt, parents, k)
    {
      assert Balanced(g, refs, ext, debt, parents, k);
    }
  }

  lemma PayOk(g: Nodes, refs: Refs, ext: multiset<nat>, debt: multiset<nat>, parents: set<nat>,
              n: nat)
    requires RefsOk(g, refs, ext, debt, parents) && debt[n] > 0
    ensures RefsOk(g, refs[n := Incr(Count(refs, n))], ext, debt - multiset{n}, parents)
  {
    var refs' := refs[n := Incr(Count(refs, n))];
    forall k: nat
      ensures Balanced(g, refs', ext, debt - multiset{n}, parents, k)
    {
      assert Balanced(g, refs, ext, debt, parents, k);
    }
  }

  lemma DecrOk(g: Nodes, refs: Refs, ext: multiset<nat>, parents: set<nat>, n: nat)
    requires RefsOk(g, refs, ext, multiset{}, parents) && ext[n] > 0
    ensures 0 < Count(refs, n) <= MAXREF
    ensures RefsOk(g, refs[n := Decr(Count(refs, n))], ext - multiset{n}, multiset{}, parents)
  {
    var refs' := refs[n := Decr(Count(refs, n))];
    assert Balanced(g, refs, ext, multiset{}, parents, n);
    forall k: nat
      ensures Balanced(g, refs', ext - multiset{n}, multiset{}, parents, k)
    {
      assert Balanced(g, refs, ext, multiset{}, parents, k);
    }
  }

  /** A node that stops being counted as a parent hands its two edges to the outside. */
  lemma OpenOk(g: Nodes, refs: Refs, ext: multiset<nat>, debt: multiset<nat>, parents: set<nat>,
               p: nat)
    requires RefsOk(g, refs, ext, debt, parents) && p in parents && p in g
    ensures RefsOk(g, refs, ext + Kids(g[p]), debt, parents - {p})
  {
    forall k: nat
      ensures Balanced(g, refs, ext + Kids(g[p]), debt, parents - {p}, k)
    {
      assert Balanced(g, refs, ext, debt, parents, k);
      assert parents == (parents - {p}) + {p};
      AddParent(g, parents - {p}, p, k);
      KidsAreHits(g[p], k);
    }
  }

  /** A node that becomes a parent takes over external references to its children. */
  lemma CloseOk(g: Nodes, refs: Refs, ext: multiset<nat>, debt: multiset<nat>, parents: set<nat>,
                p: nat)
    requires p in g && p !in parents && Kids(g[p]) <= ext
    requires RefsOk(g, refs, ext, debt, parents)
    ensures RefsOk(g, refs, ext - Kids(g[p]), debt, parents + {p})
  {
    forall k: nat
      ensures Balanced(g, refs, ext - Kids(g[p]), debt, parents + {p}, k)
    {
      assert Balanced(g, refs, ext, debt, parents, k);
      AddParent(g, parents, p, k);
      KidsAreHits(g[p], k);
    }
  }

  /** A node that becomes a parent before its children are counted owes them one each. */
  lemma OweOk(g: Nodes, refs: Refs, ext: multiset<nat>, debt: multiset<nat>, parents: set<nat>,
              p: nat)
    requires p in g && p !in parents
    requires RefsOk(g, refs, ext, debt, parents)
    ensures RefsOk(g, refs, ext, debt + Kids(g[p]), parents + {p})
  {
    forall k: nat
      ensures Balanced(g, refs, ext, debt + Kids(g[p]), parents + {p}, k)
    {
      assert Balanced(g, refs, ext, debt, parents, k);
      AddParent(g, parents, p, k);
      KidsAreHits(g[p], k);
    }
  }

  lemma RegraphOk(g: Nodes, g': Nodes, refs: Refs, refs': Refs, ext: multiset<nat>,
                  debt: multiset<nat>, parents: set<nat>)
    requires RefsOk(g, refs, ext, debt, parents) && Agree(g, g', parents)
    requires forall n: nat {:trigger Count(refs', n)} :: Count(refs', n) == Count(refs, n)
    ensures RefsOk(g', refs', ext, debt, parents)
  {
    forall k: nat
      ensures Balanced(g', refs', ext, debt, parents, k)
    {
      assert Balanced(g, refs, ext, debt, parents, k);
      SameParents(g, parents, g', k);
    }
  }

  /** A child of a counted parent has a positive count. */
  lemma ChildCounted(g: Nodes, refs: Refs, ext: multiset<nat>, parents: set<nat>, p: nat)
    requires RefsOk(g, refs, ext, multiset{}, parents) && p in parents && p in g
    ensures Count(refs, g[p].thn.node) > 0 && Count(refs, g[p].els.node) > 0
  {
    var t, e := g[p].thn.node, g[p].els.node;
    ParentCounts(g, parents, p, t);
    ParentCounts(g, parents, p, e);
    assert Balanced(g, refs, ext, multiset{}, parents, t);
    assert Balanced(g, refs, ext, multiset{}, parents, e);
  }

  ghost function Frozen(refs: Refs): set<nat> {
    set n | n in refs && refs[n] == MAXREF
  }

  ghost predicate FrozenKept(refs: Refs, refs': Refs) {
    Frozen(refs) <= Frozen(refs')
  }

  /** The saturated counts are the same ones. */
  ghost predicate FrozenSame(refs: Refs, refs': Refs) {
    Frozen(refs) == Frozen(refs')
  }

  lemma SameTrans(a: Refs, b: Refs, c: Refs)
    requires FrozenSame(a, b) && FrozenSame(b, c)
    ensures FrozenSame(a, c)
  {
  }

  lemma SameKept(a: Refs, b: Refs)
    requires FrozenSame(a, b)
    ensures FrozenKept(a, b)
  {
  }

  lemma SameUpdate(a: Refs, n: nat, c: nat)
    requires n in a && (a[n] == MAXREF <==> c == MAXREF)
    ensures FrozenSame(a, a[n := c])
  {
    assert Frozen(a[n := c]) == Frozen(a);
  }

  lemma FrozenTrans(a: Refs, b: Refs, c: Refs)
    requires FrozenKept(a, b) && FrozenKept(b, c)
    ensures FrozenKept(a, c)
  {
  }

  /** Every live node of g is still there, unchanged. */
  ghost predicate LiveAgree(g: Nodes, refs: Refs, g': Nodes) {
    forall n {:trigger n in Live(g, refs)} :: n in Live(g, refs) ==> n in g' && g'[n] == g[n]
  }

  /** What is alive is determined by the external references: with at least the old ones, every
      node that was alive is alive. */
  lemma {:induction false} StaysAlive(g: Nodes, refs: Refs, ext: multiset<nat>,
                                      g': Nodes, refs': Refs, ext': multiset<nat>,
                                      ranks: seq<nat>, n: nat)
    requires Shape(g, ranks)
    requires RefsOk(g, refs, ext, multiset{}, Live(g, refs))
    requires RefsOk(g', refs', ext', multiset{}, Live(g', refs'))
    requires ext <= ext' && FrozenKept(refs, refs') && LiveAgree(g, refs, g')
    requires Count(refs, n) > 0
    ensures Count(refs', n) > 0
    decreases Rank(g, ranks, Edge(n, false))
  {
    assert Balanced(g, refs, ext, multiset{}, Live(g, refs), n);
    assert Balanced(g', refs', ext', multiset{}, Live(g', refs'), n);
    assert Count(refs, n) == MAXREF ==> n in Frozen(refs) && n in Frozen(refs');
    if Count(refs, n) < MAXREF && ext[n] == 0 {
      var p := HasParent(g, Live(g, refs), n);
      assert NodeOk(g, ranks, p);
      if n in g {
        assert NodeOk(g, ranks, n);
      }
      StaysAlive(g, refs, ext, g', refs', ext', ranks, p);
      assert p in Live(g', refs');
      ParentCounts(g', Live(g', refs'), p, n);
    }
  }
}
