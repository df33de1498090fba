/** The relational product: existential quantification of a conjunction, with a private cache
    that is keyed on the two arguments only. */
module AndSmooth {
  import opened Functions
  import opened Graph
  import opened RefCount
  import opened State
  import opened Tables
  import opened IteOps
  import opened ConstrainOps
  import opened Exists
  import opened Quantify
  import opened Slots
  import opened Support

  datatype Product = Vacant | Product(f: Edge, g: Edge, r: Edge)

  /** bdd_and_smooth_cache */
  class ProductCache {
    var entries: seq<Product>
    const hash: (Edge, Edge) -> nat

    constructor (size: nat, hash: (Edge, Edge) -> nat)
      requires size > 0
      ensures entries == seq(size, _ => Vacant)
    {
      entries := seq(size, _ => Vacant);
      this.hash := hash;
    }
  }

  ghost function EntryNodes(p: Product): multiset<nat> {
    if p.Product? then multiset{p.f.node} + multiset{p.g.node} + multiset{p.r.node} else multiset{}
  }

  /** The references the cache holds. */
  ghost function Sum(es: seq<Product>): multiset<nat> {
    if es == [] then multiset{} else Sum(es[..|es| - 1]) + EntryNodes(es[|es| - 1])
  }

  lemma SumLast(es: seq<Product>)
    requires es != []
    ensures Sum(es) == Sum(es[..|es| - 1]) + EntryNodes(es[|es| - 1])
  {
  }

  lemma {:induction false} SumAt(es: seq<Product>, k: nat, p: Product)
    requires k < |es|
    ensures Sum(es[k := p]) + EntryNodes(es[k]) == Sum(es) + EntryNodes(p)
  {
    hide Sum, EntryNodes;
    var n := |es| - 1;
    SumLast(es);
    SumLast(es[k := p]);
    if k < n {
      SumAt(es[..n], k, p);
      assert es[k := p][..n] == es[..n][k := p];
      Shuffle(Sum(es[..n][k := p]), Sum(es[..n]), EntryNodes(es[n]), EntryNodes(es[k]), EntryNodes(p));
    } else {
      assert es[k := p][..n] == es[..n];
      Commute(Sum(es[..n]), EntryNodes(es[n]), EntryNodes(p));
    }
  }

  lemma {:induction false} SumHolds(es: seq<Product>, k: nat)
    requires k < |es|
    ensures EntryNodes(es[k]) <= Sum(es)
  {
    if k < |es| - 1 {
      SumHolds(es[..|es| - 1], k);
    }
  }

  /** The entry's result is the quantified product of its two keys. */
  ghost predicate ProductOk(s: Table, x: set<nat>, p: Product) {
    p.Product? ==>
      && In(s.g, p.f) && In(s.g, p.g) && In(s.g, p.r)
      && Sem(s.den, p.r) == Smooth(Sem(s.den, p.f) * Sem(s.den, p.g), x)
  }

  /** The cache is right, and its references come on top of base. */
  ghost predicate CacheInv(s: Table, base: multiset<nat>, x: set<nat>, es: seq<Product>) {
    && es != [] && s.ext == base + Sum(es)
    && (forall i {:trigger es[i]} :: 0 <= i < |es| ==> ProductOk(s, x, es[i]))
  }

  lemma EntryHeld(s: Table, base: multiset<nat>, x: set<nat>, es: seq<Product>, i: nat)
    requires CacheInv(s, base, x, es) && i < |es| && es[i].Product?
    ensures s.ext[es[i].f.node] > 0 && s.ext[es[i].g.node] > 0 && s.ext[es[i].r.node] > 0
  {
    SumHolds(es, i);
    assert EntryNodes(es[i])[es[i].f.node] > 0 && EntryNodes(es[i])[es[i].g.node] > 0 && EntryNodes(es[i])[es[i].r.node] > 0;
  }

  lemma ProductKept(s: Table, t: Table, ranks: seq<nat>, x: set<nat>, p: Product)
    requires TableOk(s, ranks) && TableOk(t, ranks) && Kept(s, t) && ProductOk(s, x, p)
    requires p.Product? ==> s.ext[p.f.node] > 0 && s.ext[p.g.node] > 0 && s.ext[p.r.node] > 0
    ensures ProductOk(t, x, p)
  {
    if p.Product? {
      HeldAlive(s, ranks, p.f.node);
      HeldAlive(s, ranks, p.g.node);
      HeldAlive(s, ranks, p.r.node);
      KeptEdge(s, t, ranks, p.f);
      KeptEdge(s, t, ranks, p.g);
      KeptEdge(s, t, ranks, p.r);
    }
  }

  /** An operation that keeps what is alive and takes e more references. */
  lemma CacheKept(s: Table, t: Table, ranks: seq<nat>, base: multiset<nat>, e: multiset<nat>, x: set<nat>, es: seq<Product>)
    requires TableOk(s, ranks) && TableOk(t, ranks) && Kept(s, t) && CacheInv(s, base, x, es) && t.ext == s.ext + e
    ensures CacheInv(t, base + e, x, es)
  {
    hide TableOk, Kept, Sum, ProductOk;
    forall i | 0 <= i < |es|
      ensures ProductOk(t, x, es[i])
    {
      assert ProductOk(s, x, es[i]);
      if es[i].Product? {
        EntryHeld(s, base, x, es, i);
      }
      ProductKept(s, t, ranks, x, es[i]);
    }
    Commute(base, Sum(es), e);
  }

  lemma CacheFree(s: Table, t: Table, base: multiset<nat>, e: multiset<nat>, x: set<nat>, es: seq<Product>)
    requires CacheInv(s, base + e, x, es) && t.g == s.g && t.den == s.den && t.ext == s.ext - e
    ensures CacheInv(t, base, x, es)
  {
    hide Sum;
    Commute(base, e, Sum(es));
    assert base + Sum(es) + e - e == base + Sum(es);
    forall i | 0 <= i < |es|
      ensures ProductOk(t, x, es[i])
    {
      assert ProductOk(s, x, es[i]);
    }
  }

  /** Give up one reference beside those of the cache. */
  method Release(m: Manager, c: ProductCache, e: Edge, ghost base: multiset<nat>, ghost x: set<nat>)
    requires m.Valid() && CacheInv(m.Tab(), base + multiset{e.node}, x, c.entries)
    modifies m`refs, m`ext
    ensures m.Valid() && CacheInv(m.Tab(), base, x, c.entries) && FrozenKept(old(m.refs), m.refs)
  {
    hide TableOk, CacheOk, Inverse, CacheInv;
    ghost var s := m.Tab();
    CacheExt(s, base, multiset{e.node}, x, c.entries);
    Free(m, e);
    CacheFree(s, m.Tab(), base, multiset{e.node}, x, c.entries);
  }

  lemma CacheExt(s: Table, base: multiset<nat>, e: multiset<nat>, x: set<nat>, es: seq<Product>)
    requires CacheInv(s, base + e, x, es)
    ensures e <= s.ext && base <= s.ext
    ensures forall n :: e[n] > 0 ==> s.ext[n] > 0
  {
  }

  function Slot3(c: ProductCache, f: Edge, g: Edge): nat
    reads c
    requires c.entries != []
    ensures Slot3(c, f, g) < |c.entries|
  {
    c.hash(f, g) % |c.entries|
  }

  lemma MeetCommutes(f: Fn, g: Fn)
    ensures f * g == g * f
  {
  }

  lemma CacheAt(s: Table, base: multiset<nat>, x: set<nat>, es: seq<Product>, i: nat)
    requires CacheInv(s, base, x, es) && i < |es|
    ensures ProductOk(s, x, es[i])
    ensures es[i].Product? ==> s.ext[es[i].f.node] > 0 && s.ext[es[i].g.node] > 0 && s.ext[es[i].r.node] > 0
  {
    if es[i].Product? {
      EntryHeld(s, base, x, es, i);
    }
  }

  lemma CacheNonEmpty(s: Table, base: multiset<nat>, x: set<nat>, es: seq<Product>)
    requires CacheInv(s, base, x, es)
    ensures es != [] && base <= s.ext
  {
  }

  /** The private cache has the answer R for these two arguments, the smaller pointer first. */
  ghost predicate HasProduct(c: ProductCache, f: Edge, g: Edge, R: Edge)
    reads c
  {
    && c.entries != []
    && var (a, b) := if PtrLess(g, f) then (g, f) else (f, g);
       c.entries[Slot3(c, a, b)] == Product(a, b, R)
  }

  /** In whatever order the arguments are given. */
  lemma ProductEither(c: ProductCache, f: Edge, g: Edge, R: Edge)
    ensures HasProduct(c, f, g, R) <==> HasProduct(c, g, f, R)
  {
  }

  /** bdd_lookup_and_smooth_cache: the pair is first put in order, as conjunction commutes. */
  method LookupProduct(m: Manager, c: ProductCache, f0: Edge, g0: Edge, ghost base: multiset<nat>, ghost x: set<nat>)
    returns (R: Pointer)
    requires m.Valid() && CacheInv(m.Tab(), base, x, c.entries)
    modifies m`refs, m`ext
    ensures m.Valid() && Kept(old(m.Tab()), m.Tab())
    ensures CacheInv(m.Tab(), base + One(R), x, c.entries)
    ensures R.To? ==> In(m.nodes, R.e) && Sem(m.den, R.e) == Smooth(Sem(m.den, f0) * Sem(m.den, g0), x)
    ensures R.Void? ==> m.Tab() == old(m.Tab())
    ensures if R.To? then HasProduct(c, f0, g0, R.e) else forall r :: !HasProduct(c, f0, g0, r)
  {
    hide TableOk, CacheOk, Inverse, Kept, CacheInv, Smooth;
    ghost var s := m.Tab();
    CacheNonEmpty(s, base, x, c.entries);
    var f, g := f0, g0;
    if PtrLess(g, f) {
      f, g := g, f;
      MeetCommutes(Sem(m.den, f0), Sem(m.den, g0));
    }
    var i := Slot3(c, f, g);
    CacheAt(s, base, x, c.entries, i);
    var entry := c.entries[i];
    if entry.Product? && entry.f == f && entry.g == g {
      HeldAlive(s, m.ranks, entry.r.node);
      AddRef(m, entry.r);
      CacheKept(s, m.Tab(), m.ranks, base, multiset{entry.r.node}, x, c.entries);
      KeptEdge(s, m.Tab(), m.ranks, entry.r);
      R := To(entry.r);
    } else {
      CoreKeys(s, m.ranks);
      KeptRefl(s);
      CacheKept(s, s, m.ranks, base, multiset{}, x, c.entries);
      R := Void;
    }
  }

  /** The table with one entry replaced, its references taken and the old ones not yet given up. */
  lemma CacheReplace(s: Table, base: multiset<nat>, x: set<nat>, es: seq<Product>, k: nat, p: Product)
    requires CacheInv(s, base + EntryNodes(p), x, es) && k < |es| && ProductOk(s, x, p)
    ensures CacheInv(s, base + EntryNodes(es[k]), x, es[k := p])
  {
    hide Sum, EntryNodes, ProductOk;
    SumAt(es, k, p);
    Commute(base, EntryNodes(p), Sum(es));
    Commute(base, EntryNodes(es[k]), Sum(es[k := p]));
    Associate(base, Sum(es), EntryNodes(p));
    Associate(base, Sum(es[k := p]), EntryNodes(es[k]));
    var es' := es[k := p];
    forall i | 0 <= i < |es'|
      ensures ProductOk(s, x, es'[i])
    {
      assert ProductOk(s, x, es[i]);
    }
  }

  lemma ThreeParts(base: multiset<nat>, p: Product)
    requires p.Product?
    ensures base + EntryNodes(p) == base + multiset{p.f.node} + multiset{p.g.node} + multiset{p.r.node}
  {
  }

  /** Give up the references of an overwritten entry. */
  method ReleaseEntry(m: Manager, c: ProductCache, p: Product, ghost base: multiset<nat>, ghost x: set<nat>)
    requires m.Valid() && CacheInv(m.Tab(), base + EntryNodes(p), x, c.entries)
    modifies m`refs, m`ext
    ensures m.Valid() && CacheInv(m.Tab(), base, x, c.entries)
  {
    hide TableOk, CacheOk, Inverse, CacheInv;
    if p.Product? {
      ThreeParts(base, p);
      MoveLast(base, p.f.node, p.g.node, p.r.node);
      Release(m, c, p.f, base + multiset{p.g.node} + multiset{p.r.node}, x);
      Commute(base, multiset{p.g.node}, multiset{p.r.node});
      Release(m, c, p.g, base + multiset{p.r.node}, x);
      Release(m, c, p.r, base, x);
    } else {
      assert base + EntryNodes(p) == base;
    }
  }

  lemma MoveLast(base: multiset<nat>, f: nat, g: nat, r: nat)
    ensures base + multiset{f} + multiset{g} + multiset{r} == base + multiset{g} + multiset{r} + multiset{f}
  {
  }

  /** Take one more reference to an edge that base keeps alive. */
  method Take(m: Manager, c: ProductCache, e: Edge, ghost base: multiset<nat>, ghost x: set<nat>)
    requires m.Valid() && CacheInv(m.Tab(), base, x, c.entries) && Alive(m.nodes, m.refs, e)
    modifies m`refs, m`ext
    ensures m.Valid() && CacheInv(m.Tab(), base + multiset{e.node}, x, c.entries) && Kept(old(m.Tab()), m.Tab())
  {
    hide TableOk, CacheOk, Inverse, Kept, CacheInv;
    ghost var s := m.Tab();
    AddRef(m, e);
    CacheKept(s, m.Tab(), m.ranks, base, multiset{e.node}, x, c.entries);
  }

  /** bdd_insert_and_smooth_cache */
  method InsertProduct(m: Manager, c: ProductCache, f0: Edge, g0: Edge, R: Edge, ghost base: multiset<nat>, ghost x: set<nat>)
    requires m.Valid() && CacheInv(m.Tab(), base, x, c.entries)
    requires Alive(m.nodes, m.refs, f0) && Alive(m.nodes, m.refs, g0) && Alive(m.nodes, m.refs, R)
    requires Sem(m.den, R) == Smooth(Sem(m.den, f0) * Sem(m.den, g0), x)
    modifies m`refs, m`ext, c
    ensures m.Valid() && CacheInv(m.Tab(), base, x, c.entries) && HasProduct(c, f0, g0, R)
  {
    hide TableOk, CacheOk, Inverse, Kept, CacheInv, Smooth;
    CacheNonEmpty(m.Tab(), base, x, c.entries);
    var f, g := f0, g0;
    if PtrLess(g, f) {
      f, g := g, f;
      MeetCommutes(Sem(m.den, f0), Sem(m.den, g0));
    }
    var i := Slot3(c, f, g);
    var p := Product(f, g, R);
    TakeThree(m, c, p, base, x);
    var was := c.entries[i];
    CacheReplace(m.Tab(), base, x, c.entries, i, p);
    c.entries := c.entries[i := p];
    ReleaseEntry(m, c, was, base, x);
  }

  method TakeThree(m: Manager, c: ProductCache, p: Product, ghost base: multiset<nat>, ghost x: set<nat>)
    requires m.Valid() && CacheInv(m.Tab(), base, x, c.entries) && p.Product?
    requires Alive(m.nodes, m.refs, p.f) && Alive(m.nodes, m.refs, p.g) && Alive(m.nodes, m.refs, p.r)
    modifies m`refs, m`ext
    ensures m.Valid() && CacheInv(m.Tab(), base + EntryNodes(p), x, c.entries)
    ensures In(m.nodes, p.f) && In(m.nodes, p.g) && In(m.nodes, p.r)
  {
    hide TableOk, CacheOk, Inverse, Kept, CacheInv;
    ghost var s := m.Tab();
    Take(m, c, p.f, base, x);
    ghost var s1 := m.Tab();
    KeptEdge(s, s1, m.ranks, p.g);
    KeptEdge(s, s1, m.ranks, p.r);
    Take(m, c, p.g, base + multiset{p.f.node}, x);
    KeptEdge(s1, m.Tab(), m.ranks, p.r);
    Take(m, c, p.r, base + multiset{p.f.node} + multiset{p.g.node}, x);
    ThreeParts(base, p);
  }

  /** The function bdd_and_smooth computes. */
  ghost function RelProd(den: Den, f: Edge, g: Edge, x: set<nat>): Fn {
    Smooth(Sem(den, f) * Sem(den, g), x)
  }

  lemma MeetShannon(v: nat, f1: Fn, f0: Fn, g1: Fn, g0: Fn)
    ensures Shannon(v, f1, f0) * Shannon(v, g1, g0) == Shannon(v, f1 * g1, f0 * g0)
  {
  }

  lemma MeetIndep(f: Fn, g: Fn, y: nat)
    requires Indep(f, y) && Indep(g, y)
    ensures Indep(f * g, y)
  {
  }

  /** The expansion of the relational product over the top variable of f and g. */
  lemma RelProdStep(s: Table, ranks: seq<nat>, f: Edge, g: Edge, v: nat, p: Split, x: set<nat>)
    requires TableOk(s, ranks) && Splits(s, ranks, f, g, v, p)
    ensures RelProd(s.den, f, g, x)
      == if v in x then RelProd(s.den, p.f1, p.c1, x) + RelProd(s.den, p.f0, p.c0, x)
         else Shannon(v, RelProd(s.den, p.f1, p.c1, x), RelProd(s.den, p.f0, p.c0, x))
  {
    hide Smooth, Shannon, Indep, TableOk;
    var f1, f0, g1, g0 := Sem(s.den, p.f1), Sem(s.den, p.f0), Sem(s.den, p.c1), Sem(s.den, p.c0);
    SplitIndep(s, ranks, f, g, v, p);
    MeetShannon(v, f1, f0, g1, g0);
    MeetIndep(f1, g1, v);
    MeetIndep(f0, g0, v);
    if v in x {
      SmoothGone(v, f1 * g1, f0 * g0, x);
    } else {
      SmoothKept(v, f1 * g1, f0 * g0, x);
    }
  }

  /** With no variable left the conjunction is the answer. */
  lemma RelProdNone(s: Table, ranks: seq<nat>, f: Edge, g: Edge, vars: seq<int>)
    requires TableOk(s, ranks) && Passed(vars, ranks, |vars|, PairRank(s.g, ranks, f, g))
    ensures RelProd(s.den, f, g, VarSet(vars)) == Sem(s.den, f) * Sem(s.den, g)
  {
    forall y | y in VarSet(vars)
      ensures Indep(Sem(s.den, f) * Sem(s.den, g), y)
    {
      var k :| 0 <= k < |vars| && Id(vars[k]) == y;
      SemIndep(s.g, ranks, s.den, f, y);
      SemIndep(s.g, ranks, s.den, g, y);
      MeetIndep(Sem(s.den, f), Sem(s.den, g), y);
    }
    SmoothSkip(Sem(s.den, f) * Sem(s.den, g), VarSet(vars));
  }

  /** The loop at the start: the first listed variable that is not above both arguments. */
  method FirstVar(vars: seq<int>, ranks: seq<nat>, i: nat, minr: nat) returns (j: nat)
    requires Passed(vars, ranks, i, minr)
    ensures i <= j <= |vars| && Passed(vars, ranks, j, minr)
    ensures j < |vars| ==> minr <= ranks[Id(vars[j])]
  {
    j := i;
    while j < |vars|
      invariant i <= j <= |vars| && Passed(vars, ranks, j, minr)
    {
      if minr <= ranks[Id(vars[j])] {
        return;
      }
      PassHigher(vars, ranks, j, minr);
      j := j + 1;
    }
  }

  /** What the operation needs: room in the order of things, and arguments that base keeps alive. */
  ghost predicate Given(m: Manager, sc: Scratch, c: ProductCache, f: Edge, g: Edge, vars: seq<int>, i: nat, base: multiset<nat>)
    reads m, sc, c
  {
    && m.Valid() && sc.Val() == Aux({}, map[], map[])
    && Passed(vars, m.ranks, i, PairRank(m.nodes, m.ranks, f, g))
    && CacheInv(m.Tab(), base, VarSet(vars), c.entries)
    && Supported(m.nodes, m.ranks, base, f) && Supported(m.nodes, m.ranks, base, g)
  }

  /** What it gives: the product, held once more, and everything base supports untouched. */
  ghost predicate Gives(s: Table, m: Manager, sc: Scratch, c: ProductCache, R: Edge, fn: Fn, x: set<nat>, base: multiset<nat>)
    reads m, sc, c
  {
    && m.Valid() && sc.Val() == Aux({}, map[], map[])
    && CacheInv(m.Tab(), base + multiset{R.node}, x, c.entries)
    && TableOk(s, m.ranks) && Keeps(s, m.Tab(), m.ranks, base)
    && In(m.nodes, R) && Sem(m.den, R) == fn
  }

  /** bdd_and */
  method Conjunction(m: Manager, c: ProductCache, f: Edge, g: Edge, ghost base: multiset<nat>, ghost x: set<nat>)
    returns (R: Edge)
    requires m.Valid() && CacheInv(m.Tab(), base, x, c.entries) && Alive(m.nodes, m.refs, f) && Alive(m.nodes, m.refs, g)
    modifies m
    ensures m.Valid() && m.SameOrder(old(m.ranks), old(m.space), old(m.groups)) && m.reorder == old(m.reorder)
    ensures Kept(old(m.Tab()), m.Tab()) && CacheInv(m.Tab(), base + multiset{R.node}, x, c.entries)
    ensures In(m.nodes, R) && Sem(m.den, R) == old(Sem(m.den, f) * Sem(m.den, g))
    ensures Rank(m.nodes, m.ranks, R) >= old(PairRank(m.nodes, m.ranks, f, g))
  {
    hide TableOk, CacheOk, Inverse, Kept, CacheInv;
    ghost var s := m.Tab();
    CoreKeys(s, m.ranks);
    ConstSem(s.den);
    RankBound2(s, m.ranks, f, g);
    R := IteAux(m, Triple(f, g, ZERO));
    CacheKept(s, m.Tab(), m.ranks, base, multiset{R.node}, x, c.entries);
  }

  lemma RankBound2(s: Table, ranks: seq<nat>, f: Edge, g: Edge)
    requires TableOk(s, ranks)
    ensures TopRank(s.g, ranks, Triple(f, g, ZERO)) == PairRank(s.g, ranks, f, g)
  {
    RankBound(s.g, ranks, f);
    RankBound(s.g, ranks, g);
  }

  /** One argument is constant: quantify the conjunction by itself. */
  method ConstantCase(m: Manager, sc: Scratch, c: ProductCache, f: Edge, g: Edge, vars: seq<int>, j: nat, ghost base: multiset<nat>)
    returns (R: Edge)
    requires Given(m, sc, c, f, g, vars, j, base)
    modifies m, sc
    ensures m.SameOrder(old(m.ranks), old(m.space), old(m.groups)) && m.reorder == old(m.reorder)
    ensures Gives(old(m.Tab()), m, sc, c, R, old(RelProd(m.den, f, g, VarSet(vars))), VarSet(vars), base)
  {
    hide TableOk, CacheOk, Inverse, Kept, CacheInv, Smooth, Passed, Supported, Keeps, Shape, Denotes, RefsOk;
    ghost var s, x := m.Tab(), VarSet(vars);
    CacheNonEmpty(s, base, x, c.entries);
    SupportedAlive(s, m.ranks, base, f);
    SupportedAlive(s, m.ranks, base, g);
    var t := Conjunction(m, c, f, g, base, x);
    ghost var s1 := m.Tab();
    CacheTop(s1, base, t.node, x, c.entries);
    HeldAlive(s1, m.ranks, t.node);
    PassLower(vars, m.ranks, j, PairRank(s.g, m.ranks, f, g), Rank(m.nodes, m.ranks, t));
    R := QuantifyAll(m, sc, true, t, vars, j);
    ghost var s2 := m.Tab();
    CacheKept(s1, s2, m.ranks, base + multiset{t.node}, multiset{R.node}, x, c.entries);
    KeptTrans(s, s1, s2);
    ShapeOf(s, m.ranks);
    KeptKeeps(s, s2, m.ranks, base);
    Commute(base, multiset{t.node}, multiset{R.node});
    Release(m, c, t, base + multiset{R.node}, x);
    KeepsFree(s, s2, m.Tab(), m.ranks, base);
  }

  lemma CacheTop(s: Table, base: multiset<nat>, n: nat, x: set<nat>, es: seq<Product>)
    requires CacheInv(s, base + multiset{n}, x, es)
    ensures s.ext[n] > 0
  {
  }

  lemma TwoHeld(s: Table, base: multiset<nat>, a: nat, b: nat, x: set<nat>, es: seq<Product>)
    requires CacheInv(s, base + multiset{a} + multiset{b}, x, es)
    ensures s.ext[a] > 0 && s.ext[b] > 0 && base + multiset{a} <= s.ext && base <= s.ext
  {
  }

  lemma RotateThree(base: multiset<nat>, a: multiset<nat>, b: multiset<nat>, r: multiset<nat>)
    ensures base + a + b + r == base + r + a + b
  {
  }

  /** ite of held edges, after which the two results it was made from are given up. */
  method CombineHeld(m: Manager, c: ProductCache, t: Triple, T: Edge, E: Edge, ghost base: multiset<nat>, ghost x: set<nat>)
    returns (R: Edge)
    requires m.Valid() && AliveT(m.Tab(), t)
    requires CacheInv(m.Tab(), base + multiset{T.node} + multiset{E.node}, x, c.entries)
    modifies m
    ensures m.Valid() && m.SameOrder(old(m.ranks), old(m.space), old(m.groups)) && m.reorder == old(m.reorder)
    ensures TableOk(old(m.Tab()), m.ranks) && Keeps(old(m.Tab()), m.Tab(), m.ranks, base)
    ensures CacheInv(m.Tab(), base + multiset{R.node}, x, c.entries)
    ensures In(m.nodes, R) && Sem(m.den, R) == old(Meaning(m.den, t))
  {
    hide TableOk, CacheOk, Inverse, Kept, CacheInv, Keeps, Meaning;
    ghost var s := m.Tab();
    TwoHeld(s, base, T.node, E.node, x, c.entries);
    R := IteAux(m, t);
    ghost var s1 := m.Tab();
    CacheKept(s, s1, m.ranks, base + multiset{T.node} + multiset{E.node}, multiset{R.node}, x, c.entries);
    RotateThree(base, multiset{T.node}, multiset{E.node}, multiset{R.node});
    Release(m, c, E, base + multiset{R.node} + multiset{T.node}, x);
    Release(m, c, T, base + multiset{R.node}, x);
    KeptKeeps(s, s1, m.ranks, base);
    ShapeOf(s, m.ranks);
    KeepsFree(s, s1, m.Tab(), m.ranks, base);
  }

  /** ite over a fresh literal, which is given up first. */
  method CombineBranch(m: Manager, c: ProductCache, v: nat, T: Edge, E: Edge, ghost base: multiset<nat>, ghost x: set<nat>)
    returns (R: Edge)
    requires m.Valid() && v < |m.ranks| && In(m.nodes, T) && In(m.nodes, E)
    requires CacheInv(m.Tab(), base + multiset{T.node} + multiset{E.node}, x, c.entries)
    modifies m
    ensures m.Valid() && m.SameOrder(old(m.ranks), old(m.space), old(m.groups)) && m.reorder == old(m.reorder)
    ensures TableOk(old(m.Tab()), m.ranks) && Keeps(old(m.Tab()), m.Tab(), m.ranks, base)
    ensures CacheInv(m.Tab(), base + multiset{R.node}, x, c.entries)
    ensures In(m.nodes, R) && Sem(m.den, R) == Shannon(v, old(Sem(m.den, T)), old(Sem(m.den, E)))
  {
    hide TableOk, CacheOk, Inverse, Kept, CacheInv, Keeps;
    ghost var s := m.Tab();
    ghost var b2 := base + multiset{T.node} + multiset{E.node};
    TwoHeld(s, base, T.node, E.node, x, c.entries);
    HeldAlive(s, m.ranks, T.node);
    HeldAlive(s, m.ranks, E.node);
    var lit := CreateVar(m, v);
    ghost var s1 := m.Tab();
    CacheKept(s, s1, m.ranks, b2, multiset{lit.node}, x, c.entries);
    KeptEdge(s, s1, m.ranks, T);
    KeptEdge(s, s1, m.ranks, E);
    CacheTop(s1, b2, lit.node, x, c.entries);
    HeldAlive(s1, m.ranks, lit.node);
    LiteralIte(v, Sem(s1.den, T), Sem(s1.den, E));
    R := IteAux(m, Triple(lit, T, E));
    ghost var s2 := m.Tab();
    KeptTrans(s, s1, s2);
    CacheKept(s1, s2, m.ranks, b2 + multiset{lit.node}, multiset{R.node}, x, c.entries);
    ReleaseThree(m, c, lit, T, E, R, base, x);
    KeptKeeps(s, s2, m.ranks, base);
    ShapeOf(s, m.ranks);
    KeepsFree(s, s2, m.Tab(), m.ranks, base);
  }

  method ReleaseThree(m: Manager, c: ProductCache, lit: Edge, T: Edge, E: Edge, R: Edge, ghost base: multiset<nat>, ghost x: set<nat>)
    requires m.Valid()
    requires CacheInv(m.Tab(), base + multiset{T.node} + multiset{E.node} + multiset{lit.node} + multiset{R.node}, x, c.entries)
    modifies m`refs, m`ext
    ensures m.Valid() && CacheInv(m.Tab(), base + multiset{R.node}, x, c.entries)
  {
    hide TableOk, CacheOk, Inverse, CacheInv;
    ghost var t, e, l, r := multiset{T.node}, multiset{E.node}, multiset{lit.node}, multiset{R.node};
    Commute(base + t + e, l, r);
    Release(m, c, lit, base + t + e + r, x);
    Commute(base + t, e, r);
    Release(m, c, E, base + t + r, x);
    Commute(base, t, r);
    Release(m, c, T, base + r, x);
  }

  lemma SupportedSplit(s: Table, ranks: seq<nat>, base: multiset<nat>, f: Edge, g: Edge, rank: nat)
    requires TableOk(s, ranks) && Supported(s.g, ranks, base, f) && Supported(s.g, ranks, base, g)
    ensures var p := SplitAt(s.g, ranks, f, g, rank);
      && Supported(s.g, ranks, base, p.f1) && Supported(s.g, ranks, base, p.f0)
      && Supported(s.g, ranks, base, p.c1) && Supported(s.g, ranks, base, p.c0)
  {
    SupportedCofactors(s.g, ranks, base, f);
    SupportedCofactors(s.g, ranks, base, g);
  }

  /** bdd_and_smooth_aux. What is left of the list, vars[i..], has no part in the cache's keys. */
  method AndSmoothAux(m: Manager, sc: Scratch, c: ProductCache, f: Edge, g: Edge, vars: seq<int>, i: nat, ghost base: multiset<nat>)
    returns (R: Edge)
    requires Given(m, sc, c, f, g, vars, i, base)
    modifies m, sc, c
    ensures m.SameOrder(old(m.ranks), old(m.space), old(m.groups)) && m.reorder == old(m.reorder)
    ensures Gives(old(m.Tab()), m, sc, c, R, old(RelProd(m.den, f, g, VarSet(vars))), VarSet(vars), base)
    decreases TERMID - PairRank(m.nodes, m.ranks, f, g), 1
  {
    hide TableOk, CacheOk, Inverse, Kept, CacheInv, Passed, Supported, Keeps, Smooth;
    ghost var s, x := m.Tab(), VarSet(vars);
    ShapeOf(s, m.ranks);
    CacheNonEmpty(s, base, x, c.entries);
    SupportedAlive(s, m.ranks, base, f);
    SupportedAlive(s, m.ranks, base, g);
    PairBound(s, m.ranks, f, g);
    var j := FirstVar(vars, m.ranks, i, PairRank(m.nodes, m.ranks, f, g));
    if j == |vars| {
      RelProdNone(s, m.ranks, f, g, vars);
      R := Conjunction(m, c, f, g, base, x);
      KeptKeeps(s, m.Tab(), m.ranks, base);
    } else if f.node == 0 || g.node == 0 {
      R := ConstantCase(m, sc, c, f, g, vars, j, base);
    } else {
      var hit := LookupProduct(m, c, f, g, base, x);
      if hit.To? {
        R := hit.e;
        KeptKeeps(s, m.Tab(), m.ranks, base);
        SameProduct(s, m.Tab(), m.ranks, base, f, g, x);
      } else {
        R := AndSmoothExpand(m, sc, c, f, g, vars, j, base);
        SameProduct(s, m.Tab(), m.ranks, base, f, g, x);
        AliveAfter(s, m.Tab(), m.ranks, base, f, g, R, x, c.entries);
        ghost var t := m.Tab();
        InsertProduct(m, c, f, g, R, base + multiset{R.node}, x);
        KeepsFree(s, t, m.Tab(), m.ranks, base);
      }
    }
  }

  lemma SameProduct(s: Table, t: Table, ranks: seq<nat>, base: multiset<nat>, f: Edge, g: Edge, x: set<nat>)
    requires TableOk(s, ranks) && TableOk(t, ranks) && Keeps(s, t, ranks, base)
    requires Supported(s.g, ranks, base, f) && Supported(s.g, ranks, base, g)
    ensures RelProd(t.den, f, g, x) == RelProd(s.den, f, g, x)
    ensures PairRank(t.g, ranks, f, g) == PairRank(s.g, ranks, f, g)
    ensures Supported(t.g, ranks, base, f) && Supported(t.g, ranks, base, g)
  {
    SupportedKept(s, t, ranks, base, f);
    SupportedKept(s, t, ranks, base, g);
  }

  lemma AliveAfter(s: Table, t: Table, ranks: seq<nat>, base: multiset<nat>, f: Edge, g: Edge, R: Edge, x: set<nat>, es: seq<Product>)
    requires TableOk(s, ranks) && TableOk(t, ranks) && Keeps(s, t, ranks, base)
    requires Supported(s.g, ranks, base, f) && Supported(s.g, ranks, base, g)
    requires CacheInv(t, base + multiset{R.node}, x, es)
    ensures Alive(t.g, t.refs, f) && Alive(t.g, t.refs, g) && Alive(t.g, t.refs, R)
  {
    SupportedKept(s, t, ranks, base, f);
    SupportedKept(s, t, ranks, base, g);
    CacheNonEmpty(t, base + multiset{R.node}, x, es);
    SupportedAlive(t, ranks, base, f);
    SupportedAlive(t, ranks, base, g);
    CacheTop(t, base, R.node, x, es);
    HeldAlive(t, ranks, R.node);
  }

  /** The recursion after a miss. */
  method AndSmoothExpand(m: Manager, sc: Scratch, c: ProductCache, f: Edge, g: Edge, vars: seq<int>, j: nat, ghost base: multiset<nat>)
    returns (R: Edge)
    requires Given(m, sc, c, f, g, vars, j, base) && f.node != 0 && j < |vars|
    requires Alive(m.nodes, m.refs, f) && Alive(m.nodes, m.refs, g)
    requires PairRank(m.nodes, m.ranks, f, g) <= VarRank(m.ranks, Id(vars[j]))
    modifies m, sc, c
    ensures m.SameOrder(old(m.ranks), old(m.space), old(m.groups)) && m.reorder == old(m.reorder)
    ensures Gives(old(m.Tab()), m, sc, c, R, old(RelProd(m.den, f, g, VarSet(vars))), VarSet(vars), base)
    decreases TERMID - PairRank(m.nodes, m.ranks, f, g), 0
  {
    hide TableOk, CacheOk, Inverse, Kept, CacheInv, Passed, Supported, Keeps, RelProd, SplitAt, Splits;
    ghost var s, x := m.Tab(), VarSet(vars);
    ShapeOf(s, m.ranks);
    var v := PairVar(m.nodes, m.ranks, f, g);
    PairTop(s, m.ranks, f, g);
    var minr := m.ranks[v];
    var p := SplitAt(m.nodes, m.ranks, f, g, minr);
    SplitsOk(s, m.ranks, m.space, f, g, v);
    SupportedSplit(s, m.ranks, base, f, g, minr);
    RelProdStep(s, m.ranks, f, g, v, p, x);
    SplitRanks(s, m.ranks, f, g, v, p);
    PassedList(vars, m.ranks, j, minr);
    NextIsTop(vars, m.ranks, m.space, j, v);
    PassLower(vars, m.ranks, j, minr, PairRank(m.nodes, m.ranks, p.f1, p.c1));
    PassLower(vars, m.ranks, j, minr, PairRank(m.nodes, m.ranks, p.f0, p.c0));
    var T := AndSmoothAux(m, sc, c, p.f1, p.c1, vars, j, base);
    ghost var s1 := m.Tab();
    SameProduct(s, s1, m.ranks, base, p.f0, p.c0, x);
    if m.ranks[Id(vars[j])] == minr && T == ONE {
      R := JoinOne(m, c, T, base, x);
      AllTrue(s.den, p, x, s1, m.ranks);
    } else {
      ghost var b1 := base + multiset{T.node};
      ShapeOf(s1, m.ranks);
      SupportedMore(s1.g, m.ranks, base, multiset{T.node}, p.f0);
      SupportedMore(s1.g, m.ranks, base, multiset{T.node}, p.c0);
      var E := AndSmoothAux(m, sc, c, p.f0, p.c0, vars, j, b1);
      ghost var s2 := m.Tab();
      HeldKept(s1, s2, m.ranks, base, T, x, c.entries);
      if m.ranks[Id(vars[j])] == minr {
        R := CombineOr(m, c, T, E, base, x);
      } else {
        R := CombineBranch(m, c, v, T, E, base, x);
      }
      KeepsTrans(s1, s2, m.Tab(), m.ranks, base);
    }
    KeepsTrans(s, s1, m.Tab(), m.ranks, base);
  }

  lemma SplitRanks(s: Table, ranks: seq<nat>, f: Edge, g: Edge, v: nat, p: Split)
    requires Splits(s, ranks, f, g, v, p)
    ensures ranks[v] < PairRank(s.g, ranks, p.f1, p.c1) <= TERMID
    ensures ranks[v] < PairRank(s.g, ranks, p.f0, p.c0) <= TERMID
  {
  }

  /** bdd_1 takes the place of a result that is constant true. */
  method JoinOne(m: Manager, c: ProductCache, T: Edge, ghost base: multiset<nat>, ghost x: set<nat>) returns (R: Edge)
    requires m.Valid() && CacheInv(m.Tab(), base + multiset{T.node}, x, c.entries)
    modifies m`refs, m`ext
    ensures m.Valid() && R == ONE && CacheInv(m.Tab(), base + multiset{R.node}, x, c.entries)
    ensures Keeps(old(m.Tab()), m.Tab(), m.ranks, base)
  {
    hide TableOk, CacheOk, Inverse, Kept, CacheInv, Keeps;
    ghost var s := m.Tab();
    ShapeOf(s, m.ranks);
    KeepsRefl(s, m.ranks, base);
    R := ONE;
    Take(m, c, R, base + multiset{T.node}, x);
    Commute(base, multiset{T.node}, multiset{R.node});
    Release(m, c, T, base + multiset{R.node}, x);
    KeepsFree(s, s, m.Tab(), m.ranks, base);
  }

  lemma AllTrue(den: Den, p: Split, x: set<nat>, t: Table, ranks: seq<nat>)
    requires TableOk(t, ranks) && RelProd(den, p.f1, p.c1, x) == Sem(t.den, ONE)
    ensures RelProd(den, p.f1, p.c1, x) + RelProd(den, p.f0, p.c0, x) == Sem(t.den, ONE)
  {
    CoreKeys(t, ranks);
    ConstSem(t.den);
  }

  /** The first result, held during the second recursion. */
  lemma HeldKept(s: Table, t: Table, ranks: seq<nat>, base: multiset<nat>, T: Edge, x: set<nat>, es: seq<Product>)
    requires TableOk(s, ranks) && TableOk(t, ranks) && In(s.g, T) && Keeps(s, t, ranks, base + multiset{T.node})
    ensures Keeps(s, t, ranks, base) && In(t.g, T) && Sem(t.den, T) == Sem(s.den, T)
  {
    assert (base + multiset{T.node})[T.node] > 0;
    SupportedHeld(s.g, ranks, base + multiset{T.node}, T);
    SupportedKept(s, t, ranks, base + multiset{T.node}, T);
    KeepsLess(s, t, ranks, base, multiset{T.node});
  }

  /** bdd_or of the two results, which are then given up. */
  method CombineOr(m: Manager, c: ProductCache, T: Edge, E: Edge, ghost base: multiset<nat>, ghost x: set<nat>)
    returns (R: Edge)
    requires m.Valid() && In(m.nodes, T) && In(m.nodes, E)
    requires CacheInv(m.Tab(), base + multiset{T.node} + multiset{E.node}, x, c.entries)
    modifies m
    ensures m.Valid() && m.SameOrder(old(m.ranks), old(m.space), old(m.groups)) && m.reorder == old(m.reorder)
    ensures TableOk(old(m.Tab()), m.ranks) && Keeps(old(m.Tab()), m.Tab(), m.ranks, base)
    ensures CacheInv(m.Tab(), base + multiset{R.node}, x, c.entries)
    ensures In(m.nodes, R) && Sem(m.den, R) == old(Sem(m.den, T) + Sem(m.den, E))
  {
    hide TableOk, CacheOk, Inverse, Kept, CacheInv, Keeps;
    ghost var s := m.Tab();
    TwoHeld(s, base, T.node, E.node, x, c.entries);
    HeldAlive(s, m.ranks, T.node);
    HeldAlive(s, m.ranks, E.node);
    CoreKeys(s, m.ranks);
    ConstSem(s.den);
    R := CombineHeld(m, c, Triple(T, ONE, E), T, E, base, x);
  }

  ghost predicate AllVacant(es: seq<Product>, n: nat) {
    n <= |es| && forall k {:trigger es[k]} :: 0 <= k < n ==> es[k] == Vacant
  }

  lemma {:induction false} VacantSum(es: seq<Product>)
    requires AllVacant(es, |es|)
    ensures Sum(es) == multiset{}
  {
    if es != [] {
      VacantSum(es[..|es| - 1]);
      assert EntryNodes(es[|es| - 1]) == multiset{};
    }
  }

  /** bdd_cleanup_and_smooth_cache */
  method CleanupProducts(m: Manager, c: ProductCache, ghost base: multiset<nat>, ghost x: set<nat>)
    requires m.Valid() && CacheInv(m.Tab(), base, x, c.entries)
    modifies m`refs, m`ext, c
    ensures m.Valid() && m.ext == base && AllVacant(c.entries, |c.entries|) && c.entries != []
  {
    hide TableOk, CacheOk, Inverse, CacheInv, Sum, ProductOk;
    var k := 0;
    while k < |c.entries|
      invariant m.Valid() && CacheInv(m.Tab(), base, x, c.entries) && AllVacant(c.entries, k)
      decreases |c.entries| - k
    {
      var p := c.entries[k];
      if p.Product? {
        NoEntry(m.Tab(), base, x, c.entries);
        CacheReplace(m.Tab(), base, x, c.entries, k, Vacant);
        c.entries := c.entries[k := Vacant];
        ReleaseEntry(m, c, p, base, x);
      }
      k := k + 1;
    }
    CacheNonEmpty(m.Tab(), base, x, c.entries);
    VacantSum(c.entries);
    CacheAlone(m.Tab(), base, x, c.entries);
  }

  lemma NoEntry(s: Table, base: multiset<nat>, x: set<nat>, es: seq<Product>)
    requires CacheInv(s, base, x, es)
    ensures CacheInv(s, base + EntryNodes(Vacant), x, es) && ProductOk(s, x, Vacant)
  {
    assert base + EntryNodes(Vacant) == base;
  }

  lemma CacheAlone(s: Table, base: multiset<nat>, x: set<nat>, es: seq<Product>)
    requires Sum(es) == multiset{}
    ensures CacheInv(s, base, x, es) ==> s.ext == base
    ensures es != [] && AllVacant(es, |es|) && s.ext == base ==> CacheInv(s, base, x, es)
  {
    assert base + multiset{} == base;
    if AllVacant(es, |es|) {
      forall i | 0 <= i < |es|
        ensures ProductOk(s, x, es[i])
      {
        assert es[i] == Vacant;
      }
    }
  }

  ghost predicate Owned(m: Manager, p: Pointer)
    reads m
  {
    p.To? ==> In(m.nodes, p.e) && (p.e.node == 0 || m.ext[p.e.node] > 0)
  }

  /** bdd_and_smooth: E(vars).(f & g) for arguments the caller holds and a list sorted by rank. */
  method BddAndSmooth(m: Manager, sc: Scratch, c: ProductCache, f: Pointer, g: Pointer, vars: seq<int>) returns (R: Pointer)
    requires m.Valid() && Owned(m, f) && Owned(m, g) && Listed(vars, m.ranks)
    requires sc.Val() == Aux({}, map[], map[]) && c.entries != [] && AllVacant(c.entries, |c.entries|)
    modifies m, sc, c
    ensures m.Valid() && m.SameOrder(old(m.ranks), old(m.space), old(m.groups)) && m.reorder == old(m.reorder)
    ensures sc.Val() == Aux({}, map[], map[]) && c.entries != [] && AllVacant(c.entries, |c.entries|)
    ensures R.Void? <==> f.Void? || g.Void?
    ensures R.Void? ==> m.Tab() == old(m.Tab())
    ensures R.To? ==>
      && m.ext == old(m.ext) + multiset{R.e.node} && In(m.nodes, R.e)
      && Sem(m.den, R.e) == old(RelProd(m.den, f.e, g.e, VarSet(vars)))
      && TableOk(old(m.Tab()), m.ranks) && Keeps(old(m.Tab()), m.Tab(), m.ranks, old(m.ext))
  {
    hide TableOk, CacheOk, Inverse, Kept, CacheInv, Supported, Keeps, Smooth, Sum;
    if f.Void? || g.Void? {
      return Void;
    }
    ghost var s, x := m.Tab(), VarSet(vars);
    ShapeOf(s, m.ranks);
    OwnedOk(s, m.ranks, f.e);
    OwnedOk(s, m.ranks, g.e);
    VacantSum(c.entries);
    CacheAlone(s, s.ext, x, c.entries);
    PassedNone(vars, m.ranks, PairRank(m.nodes, m.ranks, f.e, g.e));
    if vars == [] {
      RelProdNone(s, m.ranks, f.e, g.e, vars);
      var r := Conjunction(m, c, f.e, g.e, s.ext, x);
      KeptKeeps(s, m.Tab(), m.ranks, s.ext);
      CacheAlone(m.Tab(), s.ext + multiset{r.node}, x, c.entries);
      return To(r);
    }
    var save := m.reorder;
    m.reorder := false;
    var r := AndSmoothAux(m, sc, c, f.e, g.e, vars, 0, s.ext);
    m.reorder := save;
    ghost var t := m.Tab();
    CleanupProducts(m, c, s.ext + multiset{r.node}, x);
    KeepsFree(s, t, m.Tab(), m.ranks, s.ext);
    R := To(r);
  }

  lemma OwnedOk(s: Table, ranks: seq<nat>, e: Edge)
    requires TableOk(s, ranks) && In(s.g, e) && (e.node == 0 || s.ext[e.node] > 0)
    ensures Supported(s.g, ranks, s.ext, e) && Alive(s.g, s.refs, e)
  {
    if e.node != 0 {
      SupportedHeld(s.g, ranks, s.ext, e);
      HeldAlive(s, ranks, e.node);
    }
  }
}
