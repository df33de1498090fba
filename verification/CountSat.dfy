/** Counting satisfying assignments. */
module CountSat {
  import opened Functions
  import opened Graph
  import opened RefCount
  import opened Nearest
  import opened State
  import opened Tables
  import opened ConstrainOps
  import D = Doubles

  /** The satisfying assignments of f over the variables of x. */
  ghost function Sats(f: Fn, x: set<nat>): set<Asg> {
    set a | a in Subsets(x) && a in f
  }

  ghost function Subsets(x: set<nat>): set<Asg> {
    set a: set<nat> | a <= x
  }

  function VarsOf(dom: seq<nat>): set<nat> {
    set i {:trigger dom[i]} | 0 <= i < |dom| :: dom[i]
  }

  /** Counting by deciding the variables of dom one after the other. */
  ghost function Models(f: Fn, dom: seq<nat>): nat {
    if dom == [] then (if {} in f then 1 else 0)
    else Models(Cof(f, dom[0], true), dom[1..]) + Models(Cof(f, dom[0], false), dom[1..])
  }

  lemma PlusMinus(a: Asg, x: nat)
    ensures x !in a ==> (a + {x}) - {x} == a
    ensures x in a ==> (a - {x}) + {x} == a
  {
  }

  /** Adding x to every assignment loses none. */
  lemma {:induction false} AddToAll(s: set<Asg>, t: set<Asg>, x: nat)
    requires forall a {:trigger a in s} :: a in s ==> x !in a && a + {x} in t
    requires forall a {:trigger a in t} :: a in t ==> x in a && a - {x} in s
    ensures |s| == |t|
    decreases s
  {
    if s != {} {
      var a :| a in s;
      var b := a + {x};
      PlusMinus(a, x);
      forall c | c in s - {a}
        ensures x !in c && c + {x} in t - {b}
      {
        PlusMinus(c, x);
      }
      forall c | c in t - {b}
        ensures x in c && c - {x} in s - {a}
      {
        PlusMinus(c, x);
      }
      AddToAll(s - {a}, t - {b}, x);
      assert |t| == |t - {b}| + 1;
    } else {
      assert t == {};
    }
  }

  ghost function With(all: set<Asg>, x: nat, b: bool): set<Asg> {
    set a | a in all && (x in a) == b
  }

  lemma InSats(f: Fn, x: set<nat>, a: Asg)
    ensures a in Sats(f, x) <==> a <= x && a in f
  {
  }

  lemma CofAt(f: Fn, x: nat, a: Asg)
    ensures x !in a ==> (a in Cof(f, x, true) <==> a + {x} in f) && (a in Cof(f, x, false) <==> a in f)
  {
    assert x !in a ==> Assign(a, x, true) == a + {x} && Assign(a, x, false) == a;
  }

  lemma WithTrue(f: Fn, x: nat, rest: set<nat>)
    requires x !in rest
    ensures |With(Sats(f, rest + {x}), x, true)| == |Sats(Cof(f, x, true), rest)|
  {
    hide Sats, Cof;
    var t, s := With(Sats(f, rest + {x}), x, true), Sats(Cof(f, x, true), rest);
    forall a | a in s
      ensures x !in a && a + {x} in t
    {
      InSats(Cof(f, x, true), rest, a);
      InSats(f, rest + {x}, a + {x});
      CofAt(f, x, a);
    }
    forall a | a in t
      ensures x in a && a - {x} in s
    {
      InSats(Cof(f, x, true), rest, a - {x});
      InSats(f, rest + {x}, a);
      CofAt(f, x, a - {x});
      PlusMinus(a, x);
    }
    AddToAll(s, t, x);
  }

  lemma WithFalse(f: Fn, x: nat, rest: set<nat>)
    requires x !in rest
    ensures With(Sats(f, rest + {x}), x, false) == Sats(Cof(f, x, false), rest)
  {
    hide Sats, Cof;
    forall a: Asg
      ensures a in With(Sats(f, rest + {x}), x, false) <==> a in Sats(Cof(f, x, false), rest)
    {
      InSats(Cof(f, x, false), rest, a);
      InSats(f, rest + {x}, a);
      CofAt(f, x, a);
    }
  }

  lemma SatsSplit(f: Fn, x: nat, rest: set<nat>)
    requires x !in rest
    ensures |Sats(f, rest + {x})| == |Sats(Cof(f, x, true), rest)| + |Sats(Cof(f, x, false), rest)|
  {
    hide Sats, Cof;
    var all := Sats(f, rest + {x});
    WithTrue(f, x, rest);
    WithFalse(f, x, rest);
    assert all == With(all, x, true) + With(all, x, false);
  }

  lemma SatsNone(f: Fn)
    ensures |Sats(f, {})| == if {} in f then 1 else 0
  {
    var e: Asg := {};
    forall a: Asg
      ensures a in Sats(f, {}) <==> a == e && e in f
    {
      InSats(f, {}, a);
      assert a <= {} ==> a == e;
    }
    assert Sats(f, {}) == if e in f then {e} else {};
  }

  lemma VarsSplit(dom: seq<nat>)
    requires dom != []
    ensures VarsOf(dom) == VarsOf(dom[1..]) + {dom[0]}
  {
    assert dom[0] in VarsOf(dom);
    forall i | 0 <= i < |dom[1..]|
      ensures dom[1..][i] in VarsOf(dom)
    {
      assert dom[1..][i] == dom[i + 1];
    }
    forall v | v in VarsOf(dom)
      ensures v in VarsOf(dom[1..]) + {dom[0]}
    {
      var i :| 0 <= i < |dom| && dom[i] == v;
      assert i > 0 ==> dom[1..][i - 1] == v;
    }
  }

  /** The count is the number of satisfying assignments. */
  lemma {:induction false} CountIsCard(f: Fn, dom: seq<nat>)
    requires forall i, j :: 0 <= i < j < |dom| ==> dom[i] != dom[j]
    ensures Models(f, dom) == |Sats(f, VarsOf(dom))|
    decreases |dom|
  {
    hide Sats, Cof;
    if dom == [] {
      assert VarsOf(dom) == {};
      SatsNone(f);
    } else {
      var x, rest := dom[0], dom[1..];
      CountIsCard(Cof(f, x, true), rest);
      CountIsCard(Cof(f, x, false), rest);
      forall i | 0 <= i < |rest|
        ensures rest[i] != x
      {
        assert rest[i] == dom[i + 1];
      }
      VarsSplit(dom);
      SatsSplit(f, x, VarsOf(rest));
    }
  }

  lemma CountStep(f: Fn, dom: seq<nat>)
    requires dom != []
    ensures Models(f, dom) == Models(Cof(f, dom[0], true), dom[1..]) + Models(Cof(f, dom[0], false), dom[1..])
  {
  }

  /** A variable f ignores doubles the count. */
  lemma {:induction false} CountSkip(f: Fn, dom: seq<nat>, k: nat)
    requires k <= |dom| && forall i :: 0 <= i < k ==> Indep(f, dom[i])
    ensures Models(f, dom) == Models(f, dom[k..]) * Pow2(k)
    decreases k
  {
    hide Models, Cof, Indep;
    if k == 0 {
      assert dom[0..] == dom;
    } else {
      CofIndep(f, dom[0], true);
      CofIndep(f, dom[0], false);
      var rest := dom[1..];
      forall i | 0 <= i < k - 1
        ensures Indep(f, rest[i])
      {
        assert rest[i] == dom[i + 1];
      }
      CountSkip(f, rest, k - 1);
      CountStep(f, dom);
      assert rest[k - 1..] == dom[k..];
      D.HalfDouble(Models(f, dom[k..]), Pow2(k - 1));
    }
  }

  lemma CofConst(x: nat, b: bool)
    ensures Cof(True(), x, b) == True() && Cof(iset{}, x, b) == iset{}
  {
  }

  lemma {:induction false} CountConst(dom: seq<nat>)
    ensures Models(True(), dom) == Pow2(|dom|) && Models(iset{}, dom) == 0
    decreases |dom|
  {
    hide Cof;
    if dom != [] {
      CofConst(dom[0], true);
      CofConst(dom[0], false);
      CountConst(dom[1..]);
    }
  }

  lemma CountShannon(v: nat, t: Fn, e: Fn, dom: seq<nat>)
    requires dom != [] && dom[0] == v && Indep(t, v) && Indep(e, v)
    ensures Models(Shannon(v, t, e), dom) == Models(t, dom[1..]) + Models(e, dom[1..])
  {
    hide Indep, Shannon;
    CofShannon(v, t, e);
    CountStep(Shannon(v, t, e), dom);
  }

  /** The variables of a positive cube, from the root down. */
  ghost predicate Cube(g: Nodes, e: Edge, dom: seq<nat>)
    decreases |dom|
  {
    if dom == [] then e == ONE
    else
      && e.node in g && !e.neg && g[e.node].varid == dom[0] && g[e.node].els == ZERO
      && Cube(g, g[e.node].thn, dom[1..])
  }

  /** The variables of dom are in the order of their ranks. */
  ghost predicate RankSorted(dom: seq<nat>, ranks: seq<nat>) {
    && (forall i {:trigger dom[i]} :: 0 <= i < |dom| ==> dom[i] < |ranks|)
    && (forall i, j :: 0 <= i < j < |dom| ==> ranks[dom[i]] < ranks[dom[j]])
  }

  lemma {:induction false} CubeSorted(g: Nodes, ranks: seq<nat>, e: Edge, dom: seq<nat>)
    requires Shape(g, ranks) && Cube(g, e, dom)
    ensures RankSorted(dom, ranks)
    ensures forall i {:trigger dom[i]} :: 0 <= i < |dom| ==> Rank(g, ranks, e) <= ranks[dom[i]]
    decreases |dom|
  {
    if dom != [] {
      assert NodeOk(g, ranks, e.node);
      CubeSorted(g, ranks, g[e.node].thn, dom[1..]);
      forall i | 1 <= i < |dom|
        ensures dom[i] < |ranks| && ranks[dom[0]] < ranks[dom[i]]
      {
        assert dom[i] == dom[1..][i - 1];
      }
      forall i, j | 0 <= i < j < |dom|
        ensures ranks[dom[i]] < ranks[dom[j]]
      {
        if i > 0 {
          assert dom[i] == dom[1..][i - 1] && dom[j] == dom[1..][j - 1];
        }
      }
    }
  }

  /** d is the number of domain variables that rank above r. */
  ghost predicate Before(dom: seq<nat>, ranks: seq<nat>, r: nat, d: nat)
    requires RankSorted(dom, ranks)
  {
    d <= |dom| && forall i {:trigger dom[i]} :: 0 <= i < |dom| ==> (i < d <==> ranks[dom[i]] < r)
  }

  lemma BeforeUnique(dom: seq<nat>, ranks: seq<nat>, r: nat, d: nat, d': nat)
    requires RankSorted(dom, ranks) && Before(dom, ranks, r, d) && Before(dom, ranks, r, d')
    ensures d == d'
  {
    assert d < |dom| ==> !(ranks[dom[d]] < r);
    assert d' < |dom| ==> !(ranks[dom[d']] < r);
  }

  /** One step down the cube. */
  lemma CubeNext(g: Nodes, ranks: seq<nat>, p: Edge, dom: seq<nat>, d: nat, r: nat)
    requires Shape(g, ranks) && d <= |dom| && Cube(g, p, dom[d..]) && RankSorted(dom, ranks)
    requires forall i {:trigger dom[i]} :: 0 <= i < d ==> ranks[dom[i]] < r
    ensures Rank(g, ranks, p) >= r && r <= TERMID ==> Before(dom, ranks, r, d)
    ensures Rank(g, ranks, p) < r <= TERMID ==>
      d < |dom| && Cube(g, CofPos(g, p), dom[d + 1..]) && ranks[dom[d]] < r
  {
    CubeSorted(g, ranks, p, dom[d..]);
    forall i | d <= i < |dom|
      ensures Rank(g, ranks, p) <= ranks[dom[i]]
    {
      assert dom[d..][i - d] == dom[i];
    }
    if d < |dom| {
      assert dom[d..][0] == dom[d] && dom[d..][1..] == dom[d + 1..];
      assert NodeOk(g, ranks, p.node);
    } else {
      assert dom[d..] == [];
    }
  }

  lemma TableRankBound(s: Table, ranks: seq<nat>, e: Edge)
    requires TableOk(s, ranks)
    ensures Rank(s.g, ranks, e) <= TERMID && Shape(s.g, ranks)
  {
    RankBound(s.g, ranks, e);
  }

  /** The domain: a cube of variables, or 0 for all variables there are. */
  ghost predicate Domain(m: Manager, domain: Edge, dom: seq<nat>)
    reads m
  {
    domain != ONE && if domain == ZERO then dom == m.space else Cube(m.nodes, domain, dom)
  }

  lemma DomainTerminal(m: Manager, domain: Edge, dom: seq<nat>)
    requires m.Valid() && Domain(m, domain, dom)
    ensures domain.node == 0 <==> domain == ZERO
    ensures domain == ZERO ==> dom == m.space && |dom| == |m.ranks|
    ensures domain != ZERO ==> Cube(m.nodes, domain, dom)
  {
    hide CacheOk, Denotes, RefsOk;
    CoreKeys(m.Tab(), m.ranks);
    InverseSize(m.ranks, m.space);
  }

  /** In the universe positions are ranks. */
  lemma RankIsPosition(m: Manager, v: Edge)
    requires m.Valid() && v.node in m.nodes
    ensures RankSorted(m.space, m.ranks) && Before(m.space, m.ranks, Rank(m.nodes, m.ranks, v), Rank(m.nodes, m.ranks, v))
  {
    hide CacheOk, Denotes, RefsOk;
    assert NodeOk(m.nodes, m.ranks, v.node);
  }

  /** position: how many domain variables precede v's. */
  method Position(m: Manager, domain: Edge, v: Edge, ghost dom: seq<nat>) returns (d: nat)
    requires m.Valid() && Domain(m, domain, dom) && RankSorted(dom, m.ranks) && v.node in m.nodes
    ensures Before(dom, m.ranks, Rank(m.nodes, m.ranks, v), d)
  {
    hide CacheOk, Denotes, RefsOk, Shape, RankSorted, Before, Domain, Inverse;
    DomainTerminal(m, domain, dom);
    if domain.node == 0 {
      RankIsPosition(m, v);
      return Rank(m.nodes, m.ranks, v);
    }
    var p := domain;
    d := 0;
    assert dom[0..] == dom;
    TableRankBound(m.Tab(), m.ranks, v);
    CubeNext(m.nodes, m.ranks, p, dom, d, Rank(m.nodes, m.ranks, v));
    while Rank(m.nodes, m.ranks, p) < Rank(m.nodes, m.ranks, v)
      invariant Walked(m, p, dom, d, Rank(m.nodes, m.ranks, v))
      decreases |dom| - d
    {
      CubeNext(m.nodes, m.ranks, p, dom, d, Rank(m.nodes, m.ranks, v));
      WalkStep(m, p, dom, d, Rank(m.nodes, m.ranks, v));
      p, d := CofPos(m.nodes, p), d + 1;
    }
    CubeNext(m.nodes, m.ranks, p, dom, d, Rank(m.nodes, m.ranks, v));
  }

  /** p is the part of the cube from its d-th variable on; those before rank above r. */
  ghost predicate Walked(m: Manager, p: Edge, dom: seq<nat>, d: nat, r: nat)
    reads m
  {
    && RankSorted(dom, m.ranks) && d <= |dom| && Cube(m.nodes, p, dom[d..])
    && forall i {:trigger dom[i]} :: 0 <= i < d ==> m.ranks[dom[i]] < r
  }

  lemma WalkStep(m: Manager, p: Edge, dom: seq<nat>, d: nat, r: nat)
    requires Walked(m, p, dom, d, r) && d < |dom| && Cube(m.nodes, CofPos(m.nodes, p), dom[d + 1..])
    requires m.ranks[dom[d]] < r
    ensures Walked(m, CofPos(m.nodes, p), dom, d + 1, r)
  {
  }

  /** distance: how many domain variables lie between v's, which is one, and w's. */
  method Distance(m: Manager, domain: Edge, v: Edge, w: Edge, ghost dom: seq<nat>, ghost dv: nat) returns (d: nat)
    requires m.Valid() && Domain(m, domain, dom) && RankSorted(dom, m.ranks) && v.node in m.nodes && w.node in m.nodes
    requires Rank(m.nodes, m.ranks, v) <= Rank(m.nodes, m.ranks, w)
    requires Before(dom, m.ranks, Rank(m.nodes, m.ranks, v), dv)
    ensures Before(dom, m.ranks, Rank(m.nodes, m.ranks, w), dv + d)
  {
    hide CacheOk, Denotes, RefsOk, Shape, RankSorted, Before, Domain, Inverse;
    DomainTerminal(m, domain, dom);
    if domain.node == 0 {
      RankIsPosition(m, v);
      RankIsPosition(m, w);
      BeforeUnique(dom, m.ranks, Rank(m.nodes, m.ranks, v), Rank(m.nodes, m.ranks, v), dv);
      return Rank(m.nodes, m.ranks, w) - Rank(m.nodes, m.ranks, v);
    }
    d := CubeDistance(m, domain, v, w, dom, dv);
  }

  method CubeDistance(m: Manager, domain: Edge, v: Edge, w: Edge, ghost dom: seq<nat>, ghost dv: nat) returns (d: nat)
    requires m.Valid() && Cube(m.nodes, domain, dom) && RankSorted(dom, m.ranks)
    requires Rank(m.nodes, m.ranks, v) <= Rank(m.nodes, m.ranks, w)
    requires Before(dom, m.ranks, Rank(m.nodes, m.ranks, v), dv)
    ensures Before(dom, m.ranks, Rank(m.nodes, m.ranks, w), dv + d)
  {
    hide CacheOk, Denotes, RefsOk, Shape, RankSorted, Before;
    var p := domain;
    ghost var k := 0;
    assert dom[0..] == dom;
    TableRankBound(m.Tab(), m.ranks, v);
    TableRankBound(m.Tab(), m.ranks, w);
    while Rank(m.nodes, m.ranks, p) < Rank(m.nodes, m.ranks, v)
      invariant Walked(m, p, dom, k, Rank(m.nodes, m.ranks, v))
      decreases |dom| - k
    {
      CubeNext(m.nodes, m.ranks, p, dom, k, Rank(m.nodes, m.ranks, v));
      WalkStep(m, p, dom, k, Rank(m.nodes, m.ranks, v));
      p, k := CofPos(m.nodes, p), k + 1;
    }
    CubeNext(m.nodes, m.ranks, p, dom, k, Rank(m.nodes, m.ranks, v));
    BeforeUnique(dom, m.ranks, Rank(m.nodes, m.ranks, v), k, dv);
    WalkOn(m, p, dom, k, Rank(m.nodes, m.ranks, v), Rank(m.nodes, m.ranks, w));
    d := 0;
    while Rank(m.nodes, m.ranks, p) < Rank(m.nodes, m.ranks, w)
      invariant Walked(m, p, dom, k, Rank(m.nodes, m.ranks, w)) && k == dv + d
      decreases |dom| - k
    {
      CubeNext(m.nodes, m.ranks, p, dom, k, Rank(m.nodes, m.ranks, w));
      WalkStep(m, p, dom, k, Rank(m.nodes, m.ranks, w));
      p, d, k := CofPos(m.nodes, p), d + 1, k + 1;
    }
    CubeNext(m.nodes, m.ranks, p, dom, k, Rank(m.nodes, m.ranks, w));
  }

  lemma WalkOn(m: Manager, p: Edge, dom: seq<nat>, d: nat, r: nat, r': nat)
    requires Walked(m, p, dom, d, r) && r <= r'
    ensures Walked(m, p, dom, d, r')
  {
  }

  /** bdd_size_cube, for a positive cube. */
  method SizeCube(m: Manager, domain: Edge, ghost dom: seq<nat>) returns (n: nat)
    requires m.Valid() && Cube(m.nodes, domain, dom)
    ensures n == |dom|
  {
    hide CacheOk, Denotes, RefsOk, Shape;
    var p := domain;
    n := 0;
    assert dom[0..] == dom;
    CoreKeys(m.Tab(), m.ranks);
    while p.node in m.nodes
      invariant n <= |dom| && Cube(m.nodes, p, dom[n..])
      decreases |dom| - n
    {
      assert dom[n..][1..] == dom[n + 1..];
      p, n := CofPos(m.nodes, p), n + 1;
    }
  }

  /** The counts of the nodes visited so far: satisfying and falsifying assignments. */
  class Counts {
    var mark: set<nat>
    var pos: map<nat, D.Double>
    var neg: map<nat, D.Double>

    constructor ()
      ensures mark == {} && pos == map[] && neg == map[]
    {
      mark, pos, neg := {}, map[], map[];
    }
  }

  /** How often f is true on the domain variables from the d-th on; how often it is false. */
  ghost predicate Counted(p: D.Double, n: D.Double, f: Fn, dom: seq<nat>, d: nat) {
    && d <= |dom| && D.Approximates(p, Models(f, dom[d..]), |dom| - d)
    && D.Approximates(n, Models(Not(f), dom[d..]), |dom| - d)
  }

  ghost predicate NodeCounted(m: Manager, c: Counts, dom: seq<nat>, n: nat)
    reads m, c`pos, c`neg
    requires RankSorted(dom, m.ranks)
  {
    && n in m.nodes && n in m.den && n in c.pos && n in c.neg
    && exists d {:trigger Before(dom, m.ranks, Rank(m.nodes, m.ranks, Edge(n, false)), d)} ::
         Before(dom, m.ranks, Rank(m.nodes, m.ranks, Edge(n, false)), d) && Counted(c.pos[n], c.neg[n], m.den[n], dom, d)
  }

  ghost predicate CountsOk(m: Manager, c: Counts, dom: seq<nat>)
    reads m, c`pos, c`neg
  {
    && RankSorted(dom, m.ranks) && |dom| <= D.MAX_EXP && c.pos.Keys == c.neg.Keys
    && (forall n {:trigger NodeCounted(m, c, dom, n)} :: n in c.pos ==> NodeCounted(m, c, dom, n))
  }

  /** All variables f depends on are in the domain. */
  ghost predicate Supports(f: Fn, dom: seq<nat>) {
    forall y: nat :: y !in dom ==> Indep(f, y)
  }

  lemma SupportsNot(f: Fn, dom: seq<nat>)
    ensures Supports(f, dom) <==> Supports(Not(f), dom)
  {
    forall y: nat
      ensures Indep(f, y) <==> Indep(Not(f), y)
    {
      IndepNot(f, y);
    }
  }

  /** The node's variable is a domain variable, namely the one at the node's position, and the
      children depend on domain variables only. */
  lemma NodeInDomain(s: Table, ranks: seq<nat>, space: seq<nat>, n: nat, dom: seq<nat>, d: nat)
    requires TableOk(s, ranks) && Inverse(ranks, space) && n in s.g && RankSorted(dom, ranks)
    requires Supports(At(s.den, n), dom) && Before(dom, ranks, Rank(s.g, ranks, Edge(n, false)), d)
    ensures d < |dom| && dom[d] == s.g[n].varid
    ensures Supports(Sem(s.den, s.g[n].thn), dom) && Supports(Sem(s.den, s.g[n].els), dom)
  {
    var v := s.g[n].varid;
    assert NodeOk(s.g, ranks, n) && NodeDenotes(s.g, s.den, n);
    TopVariableMatters(s.g, ranks, s.den, Edge(n, false));
    assert v in dom;
    var i :| 0 <= i < |dom| && dom[i] == v;
    assert !(ranks[dom[i]] < ranks[v]);
    assert d <= i;
    assert space[ranks[dom[d]]] == dom[d] && space[ranks[v]] == v;
    assert ranks[dom[d]] <= ranks[dom[i]];
    assert !(ranks[dom[d]] < ranks[v]);
    CofactorsIndep(s.g, ranks, s.den, Edge(n, false));
    var t, e := Sem(s.den, s.g[n].thn), Sem(s.den, s.g[n].els);
    forall y | y !in dom
      ensures Indep(t, y) && Indep(e, y)
    {
      BranchIndep(v, t, e, y);
    }
  }

  /** The count of a child, seen from just below its parent at position d. */
  lemma KidSkip(s: Table, ranks: seq<nat>, kid: Edge, dom: seq<nat>, d: nat, q: nat)
    requires TableOk(s, ranks) && RankSorted(dom, ranks) && In(s.g, kid)
    requires d < q <= |dom| && Before(dom, ranks, Rank(s.g, ranks, kid), q)
    ensures Models(Sem(s.den, kid), dom[d + 1..]) == Models(Sem(s.den, kid), dom[q..]) * Pow2(q - d - 1)
    ensures Models(Not(Sem(s.den, kid)), dom[d + 1..]) == Models(Not(Sem(s.den, kid)), dom[q..]) * Pow2(q - d - 1)
  {
    hide TableOk;
    var rest, k := dom[d + 1..], q - d - 1;
    var f := Sem(s.den, kid);
    forall i | 0 <= i < k
      ensures Indep(f, rest[i]) && Indep(Not(f), rest[i])
    {
      assert rest[i] == dom[d + 1 + i];
      TableIndep(s, ranks, kid, rest[i]);
      IndepNot(f, rest[i]);
    }
    CountSkip(f, rest, k);
    CountSkip(Not(f), rest, k);
    assert rest[k..] == dom[q..];
  }

  lemma TableIndep(s: Table, ranks: seq<nat>, e: Edge, x: nat)
    requires TableOk(s, ranks) && x < |ranks| && ranks[x] < Rank(s.g, ranks, e)
    ensures Indep(Sem(s.den, e), x)
  {
    SemIndep(s.g, ranks, s.den, e, x);
  }

  /** Approximations of how often kid is true, and false, on the domain from position d + 1 on. */
  ghost predicate KidCounts(m: Manager, kid: Edge, dom: seq<nat>, d: nat, p: D.Double, n: D.Double)
    reads m
  {
    Counted(p, n, Sem(m.den, kid), dom, d + 1)
  }

  /** The case of a constant child. */
  method ConstantKid(m: Manager, kid: Edge, bits: nat, ghost dom: seq<nat>, ghost d: nat) returns (p: D.Double, n: D.Double)
    requires m.Valid() && kid.node == 0 && d < |dom| <= D.MAX_EXP && bits == |dom| - d - 1
    ensures KidCounts(m, kid, dom, d, p, n)
  {
    hide D.Approximates, Models;
    CoreKeys(m.Tab(), m.ranks);
    ModelsConst(m.den, kid, dom[d + 1..]);
    var all := D.TwoUp(bits);
    D.ApproximatesMore(all, Pow2(bits), 0, bits);
    NothingIsExact(bits);
    if kid == ZERO {
      p, n := D.ZERO, all;
    } else {
      p, n := all, D.ZERO;
    }
  }

  lemma NothingIsExact(k: nat)
    ensures D.Approximates(D.ZERO, 0, k)
  {
    D.PowZero();
  }

  lemma ModelsConst(den: Den, e: Edge, dom: seq<nat>)
    requires e.node == 0 && 0 !in den
    ensures Models(Sem(den, e), dom) == if e.neg then 0 else Pow2(|dom|)
    ensures Models(Not(Sem(den, e)), dom) == if e.neg then Pow2(|dom|) else 0
  {
    CountConst(dom);
    assert Not(True()) == iset{} && Not(iset{}) == True();
  }

  lemma NodeCount(m: Manager, c: Counts, dom: seq<nat>, n: nat, q: nat)
    requires CountsOk(m, c, dom) && n in c.pos && Before(dom, m.ranks, Rank(m.nodes, m.ranks, Edge(n, false)), q)
    ensures n in m.den && n in c.neg && n in m.nodes && Counted(c.pos[n], c.neg[n], m.den[n], dom, q)
  {
    assert NodeCounted(m, c, dom, n);
    var d :| Before(dom, m.ranks, Rank(m.nodes, m.ranks, Edge(n, false)), d) && Counted(c.pos[n], c.neg[n], m.den[n], dom, d);
    BeforeUnique(dom, m.ranks, Rank(m.nodes, m.ranks, Edge(n, false)), d, q);
  }

  /** No count is larger than the number of assignments. */
  lemma {:induction false} ModelsBound(f: Fn, dom: seq<nat>)
    ensures Models(f, dom) <= Pow2(|dom|)
    decreases |dom|
  {
    if dom != [] {
      ModelsBound(Cof(f, dom[0], true), dom[1..]);
      ModelsBound(Cof(f, dom[0], false), dom[1..]);
    }
  }

  /** Counts over parts of the domain, shifted up, fit a number. */
  lemma Skipped(f: Fn, dom: seq<nat>, d: nat, q: nat)
    requires d <= q <= |dom| <= D.MAX_EXP
    ensures Models(f, dom[q..]) * Pow2(q - d) <= Pow2(D.MAX_EXP)
    ensures Models(f, dom[d..]) <= Pow2(D.MAX_EXP)
  {
    hide Pow2, Models;
    ModelsBound(f, dom[q..]);
    ModelsBound(f, dom[d..]);
    D.MulMono(Models(f, dom[q..]), Pow2(|dom| - q), Pow2(q - d));
    D.Pow2Add(|dom| - q, q - d);
    D.Pow2Mono(|dom| - d, D.MAX_EXP);
  }

  /** The case of an internal child; a complemented edge exchanges the two counts. */
  method InternalKid(m: Manager, c: Counts, kid: Edge, dist: nat, ghost dom: seq<nat>, ghost d: nat) returns (p: D.Double, n: D.Double)
    requires m.Valid() && CountsOk(m, c, dom) && kid.node in c.pos && 0 < dist && d + dist <= |dom|
    requires Before(dom, m.ranks, Rank(m.nodes, m.ranks, kid), d + dist)
    ensures KidCounts(m, kid, dom, d, p, n)
  {
    hide TableOk, CacheOk, Inverse, Before, CountsOk, Models, D.Approximates;
    var k := kid.node;
    SameRank(m.Tab(), m.ranks, kid);
    NodeCount(m, c, dom, k, d + dist);
    SortedOf(m, c, dom);
    ghost var f := m.den[k];
    NotNot(f);
    KidSkip(m.Tab(), m.ranks, kid, dom, d, d + dist);
    ghost var left := |dom| - d - dist;
    Skipped(f, dom, d + 1, d + dist);
    Skipped(Not(f), dom, d + 1, d + dist);
    p := D.ScaleCount(c.pos[k], dist - 1, Models(f, dom[d + dist..]), left);
    n := D.ScaleCount(c.neg[k], dist - 1, Models(Not(f), dom[d + dist..]), left);
    D.ApproximatesMore(p, Models(f, dom[d + 1..]), left, |dom| - d - 1);
    D.ApproximatesMore(n, Models(Not(f), dom[d + 1..]), left, |dom| - d - 1);
    if kid.neg {
      p, n := n, p;
    }
  }

  lemma SameRank(s: Table, ranks: seq<nat>, e: Edge)
    ensures Rank(s.g, ranks, Edge(e.node, false)) == Rank(s.g, ranks, e)
  {
  }

  lemma SortedOf(m: Manager, c: Counts, dom: seq<nat>)
    requires CountsOk(m, c, dom)
    ensures RankSorted(dom, m.ranks) && |dom| <= D.MAX_EXP
  {
  }

  /** What bdd_count_sat_aux needs of the visits so far: finished nodes are counted, unfinished ones
      rank above f. */
  ghost predicate Visited(m: Manager, c: Counts, dom: seq<nat>, r: nat)
    reads m, c
  {
    && CountsOk(m, c, dom) && c.pos.Keys <= c.mark
    && (forall n {:trigger n in c.mark} :: n in c.mark && n != 0 && n !in c.pos ==> Rank(m.nodes, m.ranks, Edge(n, false)) < r)
  }

  /** bdd_count_sat_aux on one child. */
  method OneKid(m: Manager, c: Counts, f: Edge, kid: Edge, domain: Edge, N: nat, ghost dom: seq<nat>, ghost d: nat)
    returns (p: D.Double, n: D.Double)
    requires m.Valid() && CountsOk(m, c, dom) && Domain(m, domain, dom) && N == |dom|
    requires f.node in m.nodes && (kid == m.nodes[f.node].thn || kid == m.nodes[f.node].els)
    requires kid.node == 0 || kid.node in c.pos
    requires d < |dom| && Before(dom, m.ranks, Rank(m.nodes, m.ranks, f), d) && dom[d] == m.nodes[f.node].varid
    ensures KidCounts(m, kid, dom, d, p, n)
  {
    hide TableOk, CacheOk, Inverse, CountsOk, KidCounts, Before, Domain, RankSorted;
    SortedOf(m, c, dom);
    if kid.node == 0 {
      var pos := Position(m, domain, f, dom);
      BeforeUnique(dom, m.ranks, Rank(m.nodes, m.ranks, f), pos, d);
      p, n := ConstantKid(m, kid, N - pos - 1, dom, d);
    } else {
      KidBelow(m.Tab(), m.ranks, f, kid);
      var dist := Distance(m, domain, f, kid, dom, d);
      FurtherDown(m.Tab(), m.ranks, f, kid, dom, d, d + dist);
      p, n := InternalKid(m, c, kid, dist, dom, d);
    }
  }

  lemma KidBelow(s: Table, ranks: seq<nat>, f: Edge, kid: Edge)
    requires TableOk(s, ranks) && f.node in s.g && (kid == s.g[f.node].thn || kid == s.g[f.node].els)
    ensures In(s.g, kid) && Rank(s.g, ranks, f) < Rank(s.g, ranks, kid) <= TERMID
  {
    EdgeChildRanks(s, ranks, f);
  }

  lemma FurtherDown(s: Table, ranks: seq<nat>, f: Edge, kid: Edge, dom: seq<nat>, d: nat, q: nat)
    requires TableOk(s, ranks) && RankSorted(dom, ranks) && f.node in s.g && Rank(s.g, ranks, f) < Rank(s.g, ranks, kid)
    requires d < |dom| && Before(dom, ranks, Rank(s.g, ranks, f), d) && dom[d] == s.g[f.node].varid
    requires Before(dom, ranks, Rank(s.g, ranks, kid), q)
    ensures d < q <= |dom|
  {
    assert NodeOk(s.g, ranks, f.node);
    assert ranks[dom[d]] < Rank(s.g, ranks, kid);
  }

  /** The two additions at a node. */
  method CountNode(m: Manager, c: Counts, f: Edge, domain: Edge, N: nat, ghost dom: seq<nat>)
    requires m.Valid() && CountsOk(m, c, dom) && Domain(m, domain, dom) && N == |dom|
    requires f.node in m.nodes && f.node !in c.pos && Supports(At(m.den, f.node), dom)
    requires forall kid {:trigger kid.node in c.pos} ::
      kid == m.nodes[f.node].thn || kid == m.nodes[f.node].els ==> kid.node == 0 || kid.node in c.pos
    modifies c`pos, c`neg
    ensures CountsOk(m, c, dom) && c.pos.Keys == old(c.pos.Keys) + {f.node}
  {
    hide TableOk, CacheOk, Inverse, CountsOk, KidCounts, Before, Domain, RankSorted, Supports;
    SortedOf(m, c, dom);
    var nd := m.nodes[f.node];
    ghost var d := SomePosition(dom, m.ranks, Rank(m.nodes, m.ranks, f));
    SameRank(m.Tab(), m.ranks, f);
    NodeInDomain(m.Tab(), m.ranks, m.space, f.node, dom, d);
    var Tp, Tn := OneKid(m, c, f, nd.thn, domain, N, dom, d);
    var Ep, En := OneKid(m, c, f, nd.els, domain, N, dom, d);
    var p, n := AddKids(m, f, dom, d, Tp, Tn, Ep, En);
    Store(m, c, f.node, p, n, dom, d);
  }

  lemma {:induction false} SomePosition(dom: seq<nat>, ranks: seq<nat>, r: nat) returns (d: nat)
    requires RankSorted(dom, ranks)
    ensures Before(dom, ranks, r, d)
    decreases |dom|
  {
    if dom == [] {
      d := 0;
    } else {
      var last := |dom| - 1;
      var rest := dom[..last];
      assert RankSorted(rest, ranks);
      d := SomePosition(rest, ranks, r);
      forall i | 0 <= i < last
        ensures i < d <==> ranks[dom[i]] < r
      {
        assert rest[i] == dom[i];
      }
      if d < last {
        assert !(ranks[rest[d]] < r) && ranks[dom[d]] < ranks[dom[last]];
      } else if ranks[dom[last]] < r {
        d := d + 1;
      }
    }
  }

  method Store(m: Manager, c: Counts, n: nat, p: D.Double, q: D.Double, ghost dom: seq<nat>, ghost d: nat)
    requires m.Valid() && CountsOk(m, c, dom) && n in m.nodes && n !in c.pos && n in m.den
    requires Before(dom, m.ranks, Rank(m.nodes, m.ranks, Edge(n, false)), d) && Counted(p, q, m.den[n], dom, d)
    modifies c`pos, c`neg
    ensures CountsOk(m, c, dom) && c.pos.Keys == old(c.pos.Keys) + {n}
  {
    hide TableOk, CacheOk, Inverse, Before, RankSorted, Counted;
    c.pos := c.pos[n := p];
    c.neg := c.neg[n := q];
    forall k | k in c.pos
      ensures NodeCounted(m, c, dom, k)
    {
      if k != n {
        assert old(NodeCounted(m, c, dom, k));
      }
    }
  }

  method AddKids(m: Manager, f: Edge, ghost dom: seq<nat>, ghost d: nat, Tp: D.Double, Tn: D.Double, Ep: D.Double, En: D.Double)
    returns (p: D.Double, n: D.Double)
    requires m.Valid() && f.node in m.nodes && d < |dom| <= D.MAX_EXP && dom[d] == m.nodes[f.node].varid
    requires KidCounts(m, m.nodes[f.node].thn, dom, d, Tp, Tn) && KidCounts(m, m.nodes[f.node].els, dom, d, Ep, En)
    ensures f.node in m.den && Counted(p, n, m.den[f.node], dom, d)
  {
    hide CacheOk, Inverse, Models, D.Approximates, Shape, RefsOk;
    ghost var nd, rest := m.nodes[f.node], dom[d + 1..];
    ghost var t, e := Sem(m.den, nd.thn), Sem(m.den, nd.els);
    NodeModels(m.Tab(), m.ranks, f.node, dom[d..]);
    assert dom[d..][0] == dom[d] && dom[d..][1..] == rest;
    Skipped(m.den[f.node], dom, d, d);
    Skipped(Not(m.den[f.node]), dom, d, d);
    p := D.AddCounts(Tp, Ep, Models(t, rest), Models(e, rest), |rest|);
    n := D.AddCounts(Tn, En, Models(Not(t), rest), Models(Not(e), rest), |rest|);
  }

  lemma NodeModels(s: Table, ranks: seq<nat>, n: nat, dom: seq<nat>)
    requires TableOk(s, ranks) && n in s.g && dom != [] && dom[0] == s.g[n].varid
    ensures n in s.den
    ensures var t, e := Sem(s.den, s.g[n].thn), Sem(s.den, s.g[n].els);
      && Models(s.den[n], dom) == Models(t, dom[1..]) + Models(e, dom[1..])
      && Models(Not(s.den[n]), dom) == Models(Not(t), dom[1..]) + Models(Not(e), dom[1..])
  {
    hide Models;
    var v, t, e := s.g[n].varid, Sem(s.den, s.g[n].thn), Sem(s.den, s.g[n].els);
    assert NodeDenotes(s.g, s.den, n);
    CofactorsIndep(s.g, ranks, s.den, Edge(n, false));
    IndepNot(t, v);
    IndepNot(e, v);
    NotShannon(v, t, e);
    CountShannon(v, t, e, dom);
    CountShannon(v, Not(t), Not(e), dom);
  }

  /** The nodes entered but not finished. */
  ghost function Open(c: Counts): set<nat>
    reads c
  {
    set n | n in c.mark && n != 0 && n !in c.pos
  }

  lemma OpenRanks(m: Manager, c: Counts, dom: seq<nat>, f: Edge, kid: Edge)
    requires m.Valid() && Visited(m, c, dom, Rank(m.nodes, m.ranks, f) + 1) && f.node in m.nodes
    requires kid == m.nodes[f.node].thn || kid == m.nodes[f.node].els
    ensures In(m.nodes, kid) && Rank(m.nodes, m.ranks, f) < Rank(m.nodes, m.ranks, kid) <= TERMID
    ensures Visited(m, c, dom, Rank(m.nodes, m.ranks, kid))
    ensures kid.node in c.mark ==> kid.node == 0 || kid.node in c.pos
  {
    KidBelow(m.Tab(), m.ranks, f, kid);
    SameRank(m.Tab(), m.ranks, kid);
  }

  /** A child: visit it unless it has been. */
  method KidVisit(m: Manager, c: Counts, f: Edge, kid: Edge, domain: Edge, N: nat, ghost dom: seq<nat>)
    requires m.Valid() && Domain(m, domain, dom) && N == |dom| && f.node in m.nodes
    requires kid == m.nodes[f.node].thn || kid == m.nodes[f.node].els
    requires Visited(m, c, dom, Rank(m.nodes, m.ranks, f) + 1) && Supports(Sem(m.den, kid), dom)
    modifies c
    ensures Visited(m, c, dom, Rank(m.nodes, m.ranks, f) + 1) && (kid.node == 0 || kid.node in c.pos)
    ensures old(c.mark) <= c.mark && old(c.pos.Keys) <= c.pos.Keys && Open(c) == old(Open(c))
    decreases TERMID - Rank(m.nodes, m.ranks, f), 0
  {
    hide CacheOk, Inverse, CountsOk, Domain, RankSorted, Supports, TableOk, Before;
    OpenRanks(m, c, dom, f, kid);
    if kid.node !in c.mark {
      SupportsRegular(m.den, kid, dom);
      ghost var open, r := Open(c), Rank(m.nodes, m.ranks, f) + 1;
      assert forall n {:trigger n in open} :: n in open ==> Rank(m.nodes, m.ranks, Edge(n, false)) < r;
      CountVisit(m, c, kid, domain, N, dom);
      forall n | n in c.mark && n != 0 && n !in c.pos
        ensures Rank(m.nodes, m.ranks, Edge(n, false)) < r
      {
        assert n in Open(c);
      }
    }
  }

  lemma SupportsRegular(den: Den, e: Edge, dom: seq<nat>)
    requires Supports(Sem(den, e), dom)
    ensures Supports(At(den, e.node), dom)
  {
    SupportsNot(At(den, e.node), dom);
  }

  lemma KidsSupported(m: Manager, n: nat, dom: seq<nat>)
    requires m.Valid() && n in m.nodes && RankSorted(dom, m.ranks) && Supports(At(m.den, n), dom)
    ensures Supports(Sem(m.den, m.nodes[n].thn), dom) && Supports(Sem(m.den, m.nodes[n].els), dom)
  {
    hide TableOk, CacheOk, Inverse, Before;
    var d := SomePosition(dom, m.ranks, Rank(m.nodes, m.ranks, Edge(n, false)));
    NodeInDomain(m.Tab(), m.ranks, m.space, n, dom, d);
  }

  /** bdd_traverse_post_rec with bdd_count_sat_aux. */
  method CountVisit(m: Manager, c: Counts, f: Edge, domain: Edge, N: nat, ghost dom: seq<nat>)
    requires m.Valid() && Domain(m, domain, dom) && N == |dom| && In(m.nodes, f)
    requires Visited(m, c, dom, Rank(m.nodes, m.ranks, f)) && f.node !in c.mark && Supports(At(m.den, f.node), dom)
    modifies c
    ensures CountsOk(m, c, dom) && c.pos.Keys <= c.mark && f.node in c.mark && (f.node == 0 || f.node in c.pos)
    ensures old(c.mark) <= c.mark && old(c.pos.Keys) <= c.pos.Keys && Open(c) == old(Open(c))
    decreases TERMID - Rank(m.nodes, m.ranks, f), 1
  {
    hide CacheOk, Inverse, CountsOk, Domain, RankSorted, Supports, TableOk, Before;
    ghost var r, open := Rank(m.nodes, m.ranks, f), Open(c);
    Enter(m, c, dom, f);
    CoreKeys(m.Tab(), m.ranks);
    if f.node in m.nodes {
      var nd := m.nodes[f.node];
      SortedOf(m, c, dom);
      KidsSupported(m, f.node, dom);
      KidVisit(m, c, f, nd.thn, domain, N, dom);
      KidVisit(m, c, f, nd.els, domain, N, dom);
      assert f.node in Open(c);
      CountNode(m, c, f, domain, N, dom);
    }
  }

  /** BDD_TOGGLE_MARK on a node not visited before. */
  method Enter(m: Manager, c: Counts, ghost dom: seq<nat>, f: Edge)
    requires Visited(m, c, dom, Rank(m.nodes, m.ranks, f)) && f.node !in c.mark
    modifies c`mark
    ensures c.mark == old(c.mark) + {f.node} && Visited(m, c, dom, Rank(m.nodes, m.ranks, f) + 1)
    ensures Open(c) == old(Open(c)) + (if f.node == 0 then {} else {f.node}) && f.node !in c.pos
  {
    hide RankSorted, CountsOk;
    c.mark := c.mark + {f.node};
  }

  /** The result at the root, moved up to the first domain variable. */
  method AtRoot(m: Manager, c: Counts, f: Edge, domain: Edge, ghost dom: seq<nat>) returns (count: D.Double)
    requires m.Valid() && Domain(m, domain, dom) && CountsOk(m, c, dom) && f.node in c.pos && f.node in m.nodes
    ensures D.Approximates(count, Models(Sem(m.den, f), dom), |dom|)
  {
    hide CacheOk, Inverse, CountsOk, Domain, TableOk, Before, Models, D.Approximates;
    SortedOf(m, c, dom);
    SameRank(m.Tab(), m.ranks, f);
    ghost var q := SomePosition(dom, m.ranks, Rank(m.nodes, m.ranks, f));
    NodeCount(m, c, dom, f.node, q);
    NotNot(m.den[f.node]);
    count := if f.neg then c.neg[f.node] else c.pos[f.node];
    var d := Position(m, domain, f, dom);
    BeforeUnique(dom, m.ranks, Rank(m.nodes, m.ranks, f), d, q);
    RootSkip(m.Tab(), m.ranks, f, dom, d);
    Skipped(Sem(m.den, f), dom, 0, d);
    count := D.ScaleCount(count, d, Models(Sem(m.den, f), dom[d..]), |dom| - d);
    D.ApproximatesMore(count, Models(Sem(m.den, f), dom), |dom| - d, |dom|);
  }

  lemma RootSkip(s: Table, ranks: seq<nat>, f: Edge, dom: seq<nat>, d: nat)
    requires TableOk(s, ranks) && RankSorted(dom, ranks) && Before(dom, ranks, Rank(s.g, ranks, f), d)
    ensures Models(Sem(s.den, f), dom) == Models(Sem(s.den, f), dom[d..]) * Pow2(d)
  {
    hide TableOk;
    forall i | 0 <= i < d
      ensures Indep(Sem(s.den, f), dom[i])
    {
      TableIndep(s, ranks, f, dom[i]);
    }
    CountSkip(Sem(s.den, f), dom, d);
  }

  /** bdd_count_sat_assignments for a cube of variables, or all variables, that contain f's support:
      never more than the number of satisfying assignments over these variables, and exactly that
      number unless marked inexact. At most one part in 2^46 for every variable is lost, and nothing
      over 46 variables or of a number below 2^47. For the empty cube it answers 0. */
  method CountSatAssignments(m: Manager, f: Pointer, domain: Pointer, ghost dom: seq<nat>) returns (count: D.Double)
    requires m.Valid() && (f.To? ==> In(m.nodes, f.e))
    requires domain.To? && domain.e != ONE ==> Domain(m, domain.e, dom)
    requires f.To? && domain.To? ==> Supports(Sem(m.den, f.e), if domain.e == ONE then [] else dom)
    ensures f.Void? || domain.Void? || domain.e == ONE ==> count == D.ZERO
    ensures f.To? && domain.To? && domain.e != ONE ==>
      && D.Approximates(count, |Sats(Sem(m.den, f.e), VarsOf(dom))|, |dom|)
      && (|dom| <= 46 ==> !count.inexact)
    ensures f.To? && domain.To? && domain.e == ONE ==>
      (D.Approximates(count, |Sats(Sem(m.den, f.e), {})|, 0) <==> f.e != ONE)
  {
    hide CacheOk, Inverse, TableOk, Sats, VarsOf, Supports, RankSorted, CountsOk;
    if f.Void? || domain.Void? || domain.e == ONE {
      if f.To? && domain.To? {
        OverNothing(m.Tab(), m.ranks, f.e);
      }
      return D.ZERO;
    }
    count := CountOver(m, f.e, domain.e, dom);
  }

  /** Over no variables the true function has one satisfying assignment, the false one none. */
  lemma OverNothing(s: Table, ranks: seq<nat>, e: Edge)
    requires TableOk(s, ranks) && In(s.g, e) && Supports(Sem(s.den, e), [])
    ensures e == ONE || e == ZERO
    ensures |Sats(Sem(s.den, e), {})| == if e == ONE then 1 else 0
  {
    if e.node in s.g {
      TopVariableMatters(s.g, ranks, s.den, e);
    }
    SatsNone(Sem(s.den, e));
    ModelsConst(s.den, e, []);
    hide Sats;
  }

  lemma RanksCount(s: Table, ranks: seq<nat>)
    requires TableOk(s, ranks)
    ensures |ranks| <= TERMID
  {
  }

  /** There are at most as many domain variables as exponents. */
  lemma DomainSize(dom: seq<nat>, ranks: seq<nat>, space: seq<nat>)
    requires RankSorted(dom, ranks) && Inverse(ranks, space) && |ranks| <= TERMID
    ensures |dom| <= D.MAX_EXP
  {
    if dom != [] {
      RankAtLeast(dom, ranks, |dom| - 1);
      InverseSize(ranks, space);
      assert space[ranks[dom[|dom| - 1]]] == dom[|dom| - 1];
    }
  }

  lemma {:induction false} RankAtLeast(dom: seq<nat>, ranks: seq<nat>, i: nat)
    requires RankSorted(dom, ranks) && i < |dom|
    ensures i <= ranks[dom[i]]
  {
    if i > 0 {
      RankAtLeast(dom, ranks, i - 1);
    }
  }

  /** Over 46 variables every count is below 2^47. */
  lemma ForSmall(f: Fn, dom: seq<nat>)
    ensures |dom| <= 46 ==> Models(f, dom) < Pow2(47)
  {
    hide Pow2, Models;
    ModelsBound(f, dom);
    if |dom| <= 46 {
      D.Pow2Mono(|dom|, 46);
      D.Pow2Positive(46);
      D.NextPow(46);
    }
  }

  method CountOver(m: Manager, f: Edge, domain: Edge, ghost dom: seq<nat>) returns (count: D.Double)
    requires m.Valid() && In(m.nodes, f) && Domain(m, domain, dom) && Supports(Sem(m.den, f), dom)
    ensures D.Approximates(count, |Sats(Sem(m.den, f), VarsOf(dom))|, |dom|) && (|dom| <= 46 ==> !count.inexact)
  {
    hide CacheOk, Inverse, TableOk, Sats, VarsOf, Supports, RankSorted, CountsOk, Domain, Cube;
    CoreKeys(m.Tab(), m.ranks);
    DomainOk(m, domain, dom);
    CountIsCard(Sem(m.den, f), dom);
    RanksCount(m.Tab(), m.ranks);
    DomainSize(dom, m.ranks, m.space);
    ForSmall(Sem(m.den, f), dom);
    if f == ZERO {
      ModelsConst(m.den, f, dom);
      NothingIsExact(|dom|);
      return D.ZERO;
    }
    DomainTerminal(m, domain, dom);
    var N;
    if domain.node == 0 {
      N := |m.ranks|;
    } else {
      N := SizeCube(m, domain, dom);
    }
    if f.node == 0 {
      ModelsConst(m.den, f, dom);
      count := D.TwoUp(N);
      D.ApproximatesMore(count, Pow2(N), 0, N);
      return;
    }
    var c := new Counts();
    NothingCounted(m, c, dom, Rank(m.nodes, m.ranks, f));
    SupportsRegular(m.den, f, dom);
    CountVisit(m, c, f, domain, N, dom);
    count := AtRoot(m, c, f, domain, dom);
  }

  lemma NothingCounted(m: Manager, c: Counts, dom: seq<nat>, r: nat)
    requires RankSorted(dom, m.ranks) && |dom| <= D.MAX_EXP && c.mark == {} && c.pos == map[] && c.neg == map[]
    ensures Visited(m, c, dom, r)
  {
  }

  lemma DomainOk(m: Manager, domain: Edge, dom: seq<nat>)
    requires m.Valid() && Domain(m, domain, dom)
    ensures RankSorted(dom, m.ranks)
    ensures forall i, j :: 0 <= i < j < |dom| ==> dom[i] != dom[j]
  {
    hide CacheOk, RefsOk, Denotes;
    if domain == ZERO {
      assert forall i {:trigger dom[i]} :: 0 <= i < |dom| ==> m.ranks[dom[i]] == i;
    } else {
      CubeSorted(m.nodes, m.ranks, domain, dom);
    }
  }
}
