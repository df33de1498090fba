/** Sum-of-products lists: all cubes prime, and a list from which no cube can be dropped. The cache
    of sum-of-products lists is switched off. */
module SumOfCubes {
  import opened Functions
  import opened Graph
  import opened RefCount
  import opened State
  import opened Tables
  import opened IteOps
  import opened ConstrainOps
  import opened Cubes
  import opened Lists
  import Slots

  /** The edges denote the functions. */
  ghost predicate Denote(s: Table, es: seq<Edge>, ps: seq<Fn>) {
    && |es| == |ps|
    && (forall i {:trigger es[i]} {:trigger ps[i]} :: 0 <= i < |es| ==> In(s.g, es[i]) && Sem(s.den, es[i]) == ps[i])
  }

  lemma NodesFirst(es: seq<Edge>)
    requires es != []
    ensures Tables.Nodes(es) == multiset{es[0].node} + Tables.Nodes(es[1..])
  {
  }

  lemma NodesNone(b: seq<Edge>)
    ensures Tables.Nodes(b) == Tables.Nodes([]) + Tables.Nodes(b)
  {
  }

  lemma {:induction false} NodesOver(a: seq<Edge>, b: seq<Edge>)
    ensures Tables.Nodes(a + b) == Tables.Nodes(a) + Tables.Nodes(b)
  {
    hide Tables.Nodes;
    if a == [] {
      assert a + b == b;
      NodesNone(b);
    } else {
      NodesOver(a[1..], b);
      var c := a + b;
      assert c[1..] == a[1..] + b && c[0] == a[0];
      NodesFirst(a);
      NodesFirst(c);
      Associate(multiset{a[0].node}, Tables.Nodes(a[1..]), Tables.Nodes(b));
    }
  }

  lemma NodesOne(e: Edge)
    ensures Tables.Nodes([e]) == multiset{e.node} && Tables.Nodes([]) == multiset{}
  {
    assert Tables.Nodes([e]) == multiset{e.node} + Tables.Nodes([]);
  }

  lemma NodesLast(a: seq<Edge>, e: Edge)
    ensures Tables.Nodes(a + [e]) == Tables.Nodes(a) + multiset{e.node}
  {
    NodesOver(a, [e]);
    NodesOne(e);
  }

  lemma NodesAt(a: seq<Edge>, k: nat, z: Edge)
    requires k < |a|
    ensures Tables.Nodes(a) == Tables.Nodes(a[..k]) + multiset{a[k].node} + Tables.Nodes(a[k + 1..])
    ensures Tables.Nodes(a[k := z]) == Tables.Nodes(a[..k]) + multiset{z.node} + Tables.Nodes(a[k + 1..])
  {
    assert a == (a[..k] + [a[k]]) + a[k + 1..];
    assert a[k := z] == (a[..k] + [z]) + a[k + 1..];
    NodesOver(a[..k] + [a[k]], a[k + 1..]);
    NodesOver(a[..k] + [z], a[k + 1..]);
    NodesLast(a[..k], a[k]);
    NodesLast(a[..k], z);
  }

  lemma NodesCounted(a: seq<Edge>, k: nat)
    requires k < |a|
    ensures Tables.Nodes(a)[a[k].node] > 0
  {
    NodesAt(a, k, a[k]);
  }

  /** Held edges denote what they did. */
  lemma DenoteRetained(s: Table, t: Table, ranks: seq<nat>, x: multiset<nat>, es: seq<Edge>, ps: seq<Fn>)
    requires TableOk(s, ranks) && TableOk(t, ranks) && Retains(s, t, x) && Tables.Nodes(es) <= x && Denote(s, es, ps)
    ensures Denote(t, es, ps)
  {
    hide TableOk;
    forall i | 0 <= i < |es|
      ensures In(t.g, es[i]) && Sem(t.den, es[i]) == ps[i]
    {
      NodesCounted(es, i);
      assert In(s.g, es[i]);
      RetainsSem(s, t, ranks, ranks, x, es[i]);
    }
  }

  lemma HeldIn(s: Table, ranks: seq<nat>, e: Edge)
    requires TableOk(s, ranks) && s.ext[e.node] > 0
    ensures Alive(s.g, s.refs, e) && In(s.g, e)
  {
    HeldAlive(s, ranks, e.node);
    AliveIn(s.g, s.refs, e);
  }

  /** BDD_COVERS: every assignment of G is one of F. */
  method Covers(m: Manager, F: Edge, G: Edge) returns (b: bool)
    requires m.Valid() && Alive(m.nodes, m.refs, F) && Alive(m.nodes, m.refs, G)
    modifies m`cache
    ensures m.Valid() && (b <==> Sem(m.den, G) <= Sem(m.den, F))
  {
    hide Tables.Nodes, TableOk, CacheOk, Inverse;
    if F == G {
      return true;
    }
    CoreKeys(m.Tab(), m.ranks);
    CoversMeans(m.den, F, G);
    var c := IteConst(m, Triple(G, F, ONE));
    b := c == Constant(true);
  }

  lemma CoversMeans(den: Den, F: Edge, G: Edge)
    requires 0 !in den
    ensures Judge(Meaning(den, Triple(G, F, ONE))) == Constant(true) <==> Sem(den, G) <= Sem(den, F)
  {
    ConstSem(den);
    var f, g := Sem(den, F), Sem(den, G);
    assert Ite(g, f, True()) == True() <==> g <= f by {
      if Ite(g, f, True()) == True() {
        forall a: Asg | a in g
          ensures a in f
        {
          assert a in Ite(g, f, True());
        }
      }
    }
  }

  lemma AndMeans(den: Den, F: Edge, G: Edge)
    requires 0 !in den
    ensures Meaning(den, Triple(F, G, ZERO)) == Sem(den, F) * Sem(den, G)
  {
    ConstSem(den);
  }

  lemma OrMeans(den: Den, F: Edge, G: Edge)
    requires 0 !in den
    ensures Meaning(den, Triple(F, ONE, G)) == Sem(den, F) + Sem(den, G)
  {
    ConstSem(den);
  }

  lemma SwapLast(y: multiset<nat>, a: nat, b: nat)
    ensures y + multiset{a} + multiset{b} == y + multiset{b} + multiset{a}
    ensures y <= y + multiset{a}
  {
  }

  /** bdd_and with a literal, after which the cube itself is given up. */
  method AndLiteral(m: Manager, lit: Edge, cube: Edge, ghost y: multiset<nat>) returns (R: Edge)
    requires m.Valid() && m.ext == y + multiset{cube.node} && y[lit.node] > 0
    modifies m
    ensures m.Valid() && m.SameOrder(old(m.ranks), old(m.space), old(m.groups)) && m.reorder == old(m.reorder)
    ensures m.ext == y + multiset{R.node} && Retains(old(m.Tab()), m.Tab(), y)
    ensures In(m.nodes, R) && Sem(m.den, R) == old(Sem(m.den, lit)) * old(Sem(m.den, cube))
  {
    hide Tables.Nodes, TableOk, CacheOk, Inverse, Kept, Retains, Meaning;
    ghost var s := m.Tab();
    HeldIn(s, m.ranks, lit);
    HeldIn(s, m.ranks, cube);
    CoreKeys(s, m.ranks);
    AndMeans(m.den, lit, cube);
    R := IteAux(m, Triple(lit, cube, ZERO));
    ghost var t := m.Tab();
    SwapLast(y, cube.node, R.node);
    KeptRetains(s, t, m.ranks, y);
    FreeHeld(m, cube, y + multiset{R.node});
    RetainsFree(s, t, m.Tab(), y);
  }

  /** A cube of the then-cofactor: kept where the else-cofactor covers it. */
  method LiftCube(m: Manager, top: Edge, E: Edge, cube: Edge, ghost v: nat, ghost y: multiset<nat>) returns (R: Edge)
    requires m.Valid() && m.ext == y + multiset{cube.node} && y[top.node] > 0 && y[E.node] > 0
    requires Sem(m.den, top) == Lit(v, true)
    modifies m
    ensures m.Valid() && m.SameOrder(old(m.ranks), old(m.space), old(m.groups)) && m.reorder == old(m.reorder)
    ensures m.ext == y + multiset{R.node} && Retains(old(m.Tab()), m.Tab(), y)
    ensures In(m.nodes, R) && Sem(m.den, R) == Lift(v, true, old(Sem(m.den, cube)), old(Sem(m.den, E)))
  {
    hide Tables.Nodes, TableOk, CacheOk, Inverse, Retains, Lit;
    HeldIn(m.Tab(), m.ranks, E);
    HeldIn(m.Tab(), m.ranks, cube);
    var covered := Covers(m, E, cube);
    if !covered {
      R := AndLiteral(m, top, cube, y);
    } else {
      R := cube;
      RetainsRefl(m.Tab(), m.ranks, y);
    }
  }

  /** The state while one list is emptied into another. */
  ghost predicate Stage(t: Table, x: multiset<nat>, rest: seq<Edge>, rs: seq<Fn>, done: seq<Edge>, ds: seq<Fn>) {
    && t.ext == x + Tables.Nodes(rest) + Tables.Nodes(done)
    && Denote(t, rest, rs) && Denote(t, done, ds)
  }

  /** What is held besides the cube in hand. */
  ghost function Beside(x: multiset<nat>, rest: seq<Edge>, done: seq<Edge>): multiset<nat> {
    x + Tables.Nodes(rest) + Tables.Nodes(done)
  }

  lemma TakeCube(t: Table, x: multiset<nat>, rest: seq<Edge>, rs: seq<Fn>, done: seq<Edge>, ds: seq<Fn>)
    requires Stage(t, x, rest, rs, done, ds) && rest != []
    ensures t.ext == Beside(x, rest[1..], done) + multiset{rest[0].node}
    ensures rs != [] && In(t.g, rest[0]) && Sem(t.den, rest[0]) == rs[0]
    ensures Denote(t, rest[1..], rs[1..]) && Denote(t, done, ds)
    ensures x <= t.ext && x <= Beside(x, rest[1..], done) && Tables.Nodes(rest[1..]) <= Beside(x, rest[1..], done) && Tables.Nodes(done) <= Beside(x, rest[1..], done)
  {
    var n, r, d := multiset{rest[0].node}, Tables.Nodes(rest[1..]), Tables.Nodes(done);
    assert x + (n + r) + d == x + r + d + n;
  }

  lemma PutCube(s: Table, t: Table, ranks: seq<nat>, x: multiset<nat>, rest: seq<Edge>, rs: seq<Fn>,
                done: seq<Edge>, ds: seq<Fn>, R: Edge)
    requires TableOk(s, ranks) && TableOk(t, ranks) && Retains(s, t, Beside(x, rest, done))
    requires Denote(s, rest, rs) && Denote(s, done, ds)
    requires t.ext == Beside(x, rest, done) + multiset{R.node} && In(t.g, R)
    ensures Stage(t, x, rest, rs, done + [R], ds + [Sem(t.den, R)])
  {
    hide TableOk, Retains, Denote, Tables.Nodes;
    FrontWithin(x, Tables.Nodes(rest), Tables.Nodes(done), 0);
    DenoteRetained(s, t, ranks, Beside(x, rest, done), rest, rs);
    DenoteRetained(s, t, ranks, Beside(x, rest, done), done, ds);
    NodesLast(done, R);
    DenoteLast(t, done, ds, R);
    Associate(x + Tables.Nodes(rest), Tables.Nodes(done), multiset{R.node});
  }

  lemma DenoteLast(t: Table, es: seq<Edge>, ps: seq<Fn>, R: Edge)
    requires Denote(t, es, ps) && In(t.g, R)
    ensures Denote(t, es + [R], ps + [Sem(t.den, R)])
  {
  }

  lemma LiftAllStep(v: nat, ps: seq<Fn>, k: nat, other: Fn)
    requires k < |ps|
    ensures LiftAll(v, ps[..k + 1], other) == LiftAll(v, ps[..k], other) + [Lift(v, true, ps[k], other)]
    ensures ps[k..] != [] && ps[k..][0] == ps[k] && ps[k..][1..] == ps[k + 1..]
  {
    assert ps[..k + 1][..k] == ps[..k];
  }

  /** The first loop of prime_implicants: the cubes of the then-cofactor. */
  method LiftList(m: Manager, top: Edge, E: Edge, cubes: List<Edge>, ghost v: nat, ghost ts: seq<Fn>, ghost x: multiset<nat>)
    returns (result: List<Edge>)
    requires m.Valid() && cubes.Valid() && m.ext == x + Tables.Nodes(cubes.Contents()) && Denote(m.Tab(), cubes.Contents(), ts)
    requires x[top.node] > 0 && x[E.node] > 0 && Sem(m.den, top) == Lit(v, true)
    modifies m, cubes, cubes.Repr
    ensures m.Valid() && m.SameOrder(old(m.ranks), old(m.space), old(m.groups)) && m.reorder == old(m.reorder)
    ensures result.Valid() && fresh(result) && fresh(result.Repr)
    ensures m.ext == x + Tables.Nodes(result.Contents()) && Retains(old(m.Tab()), m.Tab(), x)
    ensures Denote(m.Tab(), result.Contents(), LiftAll(v, ts, old(Sem(m.den, E))))
  {
    hide Tables.Nodes, TableOk, CacheOk, Inverse, Retains, Lit, Stage, Denote, Lift, LiftAll;
    ghost var s, n, e := m.Tab(), 0, Sem(m.den, E);
    result := new List();
    StageBegin(s, x, cubes.Contents(), ts);
    RetainsRefl(s, m.ranks, x);
    LiftAllNone(v, ts, e);
    while cubes.size > 0
      invariant m.Valid() && m.SameOrder(old(m.ranks), old(m.space), old(m.groups)) && m.reorder == old(m.reorder)
      invariant cubes.Valid() && cubes.Repr == old(cubes.Repr) && n <= |ts| && cubes.size == |ts| - n
      invariant result.Valid() && fresh(result) && fresh(result.Repr)
      invariant Retains(s, m.Tab(), x) && Sem(m.den, E) == e && Sem(m.den, top) == Lit(v, true)
      invariant Stage(m.Tab(), x, cubes.Contents(), ts[n..], result.Contents(), LiftAll(v, ts[..n], e))
      decreases |ts| - n
    {
      LiftFirst(m, top, E, cubes, result, v, ts, n, x, s);
      n := n + 1;
    }
    StageEnd(m.Tab(), x, cubes.Contents(), ts[n..], result.Contents(), LiftAll(v, ts[..n], e));
    assert ts[..n] == ts;
  }

  lemma StageBegin(t: Table, x: multiset<nat>, es: seq<Edge>, ps: seq<Fn>)
    requires t.ext == x + Tables.Nodes(es) && Denote(t, es, ps)
    ensures Stage(t, x, es, ps[0..], [], []) && |es| == |ps|
  {
    assert ps[0..] == ps;
  }

  lemma StageEnd(t: Table, x: multiset<nat>, es: seq<Edge>, ps: seq<Fn>, done: seq<Edge>, ds: seq<Fn>)
    requires Stage(t, x, es, ps, done, ds) && es == []
    ensures t.ext == x + Tables.Nodes(done) && Denote(t, done, ds)
  {
    assert x + multiset{} + Tables.Nodes(done) == x + Tables.Nodes(done);
  }

  lemma LiftAllNone(v: nat, ps: seq<Fn>, other: Fn)
    ensures LiftAll(v, ps[..0], other) == []
  {
  }

  method LiftNext(m: Manager, top: Edge, E: Edge, cube: Edge, ghost rest: seq<Edge>, ghost done: seq<Edge>,
                  ghost v: nat, ghost ts: seq<Fn>, ghost n: nat, ghost x: multiset<nat>, ghost s: Table)
    returns (R: Edge)
    requires m.Valid() && rest != [] && cube == rest[0]
    requires n < |ts| && x[top.node] > 0 && x[E.node] > 0 && Sem(m.den, top) == Lit(v, true)
    requires Retains(s, m.Tab(), x)
    requires Stage(m.Tab(), x, rest, ts[n..], done, LiftAll(v, ts[..n], Sem(m.den, E)))
    modifies m
    ensures m.Valid() && m.SameOrder(old(m.ranks), old(m.space), old(m.groups)) && m.reorder == old(m.reorder)
    ensures Retains(s, m.Tab(), x) && Sem(m.den, E) == old(Sem(m.den, E)) && Sem(m.den, top) == Lit(v, true)
    ensures Stage(m.Tab(), x, rest[1..], ts[n + 1..], done + [R], LiftAll(v, ts[..n + 1], Sem(m.den, E)))
  {
    hide Tables.Nodes, TableOk, CacheOk, Inverse, Retains, Lit, Stage, Denote, Lift, LiftAll, Beside;
    ghost var t := m.Tab();
    ghost var y, e := Beside(x, rest[1..], done), Sem(m.den, E);
    ghost var ds := LiftAll(v, ts[..n], e);
    TakeCube(t, x, rest, ts[n..], done, ds);
    LiftAllStep(v, ts, n, e);
    R := LiftCube(m, top, E, cube, v, y);
    PutCube(t, m.Tab(), m.ranks, x, rest[1..], ts[n + 1..], done, ds, R);
    TwoRetained(s, t, m.Tab(), m.ranks, x, y, top, E);
  }

  /** One round of the loop: the first cube goes over to the result. */
  method LiftFirst(m: Manager, top: Edge, E: Edge, cubes: List<Edge>, result: List<Edge>,
                   ghost v: nat, ghost ts: seq<Fn>, ghost n: nat, ghost x: multiset<nat>, ghost s: Table)
    requires m.Valid() && cubes.Valid() && result.Valid() && cubes != result && cubes.Repr !! result.Repr && cubes.size > 0
    requires n < |ts| && x[top.node] > 0 && x[E.node] > 0 && Sem(m.den, top) == Lit(v, true)
    requires Retains(s, m.Tab(), x)
    requires Stage(m.Tab(), x, cubes.Contents(), ts[n..], result.Contents(), LiftAll(v, ts[..n], Sem(m.den, E)))
    modifies m, cubes, cubes.Repr, result, result.Repr
    ensures m.Valid() && m.SameOrder(old(m.ranks), old(m.space), old(m.groups)) && m.reorder == old(m.reorder)
    ensures cubes.Valid() && cubes.Repr == old(cubes.Repr) && cubes.size == old(cubes.size) - 1
    ensures result.Valid() && fresh(result.Repr - old(result.Repr))
    ensures Retains(s, m.Tab(), x) && Sem(m.den, E) == old(Sem(m.den, E)) && Sem(m.den, top) == Lit(v, true)
    ensures Stage(m.Tab(), x, cubes.Contents(), ts[n + 1..], result.Contents(), LiftAll(v, ts[..n + 1], Sem(m.den, E)))
  {
    hide Tables.Nodes, TableOk, CacheOk, Inverse, Retains, Lit, Stage, Denote, Lift, LiftAll, Beside;
    ghost var rest, done := cubes.Contents(), result.Contents();
    var cube := cubes.Pop();
    var R := LiftNext(m, top, E, cube, rest, done, v, ts, n, x, s);
    result.Append(R);
  }

  lemma TwoRetained(s: Table, t: Table, u: Table, ranks: seq<nat>, x: multiset<nat>, y: multiset<nat>, e: Edge, e': Edge)
    requires TableOk(t, ranks) && TableOk(u, ranks) && Retains(s, t, x) && Retains(t, u, y) && x <= y
    requires x[e.node] > 0 && x[e'.node] > 0 && x <= t.ext
    ensures Retains(s, u, x) && Sem(u.den, e) == Sem(t.den, e) && Sem(u.den, e') == Sem(t.den, e')
  {
    hide TableOk;
    HeldIn(t, ranks, e);
    HeldIn(t, ranks, e');
    RetainsSem(t, u, ranks, ranks, y, e);
    RetainsSem(t, u, ranks, ranks, y, e');
  }

  lemma AddAllStep(v: nat, acc: seq<Fn>, ps: seq<Fn>, k: nat, other: Fn)
    requires k < |ps|
    ensures AddAll(v, acc, ps[..k + 1], other) == Add(v, AddAll(v, acc, ps[..k], other), ps[k], other)
    ensures ps[k..] != [] && ps[k..][0] == ps[k] && ps[k..][1..] == ps[k + 1..]
  {
    assert ps[..k + 1][..k] == ps[..k];
  }

  /** By canonicity, a cube is present in the list exactly when its function is. */
  lemma PresentMeans(t: Table, ranks: seq<nat>, es: seq<Edge>, ps: seq<Fn>, e: Edge)
    requires TableOk(t, ranks) && Denote(t, es, ps) && In(t.g, e)
    ensures (exists i :: 0 <= i < |es| && e == es[i]) <==> Sem(t.den, e) in ps
  {
    if i :| 0 <= i < |es| && e == es[i] {
      assert ps[i] == Sem(t.den, e);
    }
    if Sem(t.den, e) in ps {
      var i :| 0 <= i < |ps| && ps[i] == Sem(t.den, e);
      assert In(t.g, es[i]);
      Canonical(t.g, ranks, t.den, e, es[i]);
    }
  }

  /** The list as it is, the cube in hand given up. */
  lemma DropCube(s: Table, t: Table, x: multiset<nat>, rest: seq<Edge>, rs: seq<Fn>, done: seq<Edge>, ds: seq<Fn>)
    requires Denote(s, rest, rs) && Denote(s, done, ds) && t.g == s.g && t.den == s.den
    requires t.ext == Beside(x, rest, done)
    ensures Stage(t, x, rest, rs, done, ds)
  {
  }

  method AddNext(m: Manager, lit: Edge, T: Edge, cube: Edge, ghost rest: seq<Edge>, ghost done: seq<Edge>,
                 ghost v: nat, ghost es: seq<Fn>, ghost ds: seq<Fn>, ghost n: nat, ghost x: multiset<nat>, ghost s: Table)
    returns (R: Edge)
    requires m.Valid() && rest != [] && cube == rest[0]
    requires n < |es| && x[lit.node] > 0 && x[T.node] > 0 && Sem(m.den, lit) == Lit(v, false)
    requires Retains(s, m.Tab(), x) && Stage(m.Tab(), x, rest, es[n..], done, ds)
    modifies m
    ensures m.Valid() && m.SameOrder(old(m.ranks), old(m.space), old(m.groups)) && m.reorder == old(m.reorder)
    ensures Retains(s, m.Tab(), x) && Sem(m.den, T) == old(Sem(m.den, T)) && Sem(m.den, lit) == Lit(v, false)
    ensures Stage(m.Tab(), x, rest[1..], es[n + 1..], done + [R], ds + [Lit(v, false) * es[n]])
  {
    hide Tables.Nodes, TableOk, CacheOk, Inverse, Retains, Lit, Stage, Denote, Beside, AddAll;
    ghost var t := m.Tab();
    ghost var y := Beside(x, rest[1..], done);
    TakeCube(t, x, rest, es[n..], done, ds);
    AddAllStep(v, [], es, n, iset{});
    R := AndLiteral(m, lit, cube, y);
    PutCube(t, m.Tab(), m.ranks, x, rest[1..], es[n + 1..], done, ds, R);
    TwoRetained(s, t, m.Tab(), m.ranks, x, y, lit, T);
  }

  method AddDrop(m: Manager, cube: Edge, ghost rest: seq<Edge>, ghost done: seq<Edge>,
                 ghost es: seq<Fn>, ghost ds: seq<Fn>, ghost n: nat, ghost x: multiset<nat>, ghost s: Table)
    requires m.Valid() && rest != [] && cube == rest[0] && n < |es|
    requires Retains(s, m.Tab(), x) && Stage(m.Tab(), x, rest, es[n..], done, ds)
    modifies m`refs, m`ext
    ensures m.Valid() && Retains(s, m.Tab(), x)
    ensures Stage(m.Tab(), x, rest[1..], es[n + 1..], done, ds)
  {
    hide Tables.Nodes, TableOk, CacheOk, Inverse, Retains, Stage, Denote, Beside, AddAll;
    ghost var t := m.Tab();
    TakeCube(t, x, rest, es[n..], done, ds);
    AddAllStep(0, [], es, n, iset{});
    FreeHeld(m, cube, Beside(x, rest[1..], done));
    DropCube(t, m.Tab(), x, rest[1..], es[n + 1..], done, ds);
    RetainsFree(s, t, m.Tab(), x);
  }

  lemma AddKeep(t: Table, ranks: seq<nat>, x: multiset<nat>, rest: seq<Edge>, done: seq<Edge>, es: seq<Fn>, ds: seq<Fn>, n: nat)
    requires TableOk(t, ranks) && rest != [] && n < |es| && Stage(t, x, rest, es[n..], done, ds)
    ensures In(t.g, rest[0]) && Sem(t.den, rest[0]) == es[n] && t.ext[rest[0].node] > 0 && x <= t.ext
    ensures Denote(t, done, ds)
    ensures Stage(t, x, rest[1..], es[n + 1..], done + [rest[0]], ds + [es[n]])
  {
    hide TableOk, Retains, Stage, Denote, Beside, AddAll;
    TakeCube(t, x, rest, es[n..], done, ds);
    AddAllStep(0, [], es, n, iset{});
    RetainsRefl(t, ranks, Beside(x, rest[1..], done));
    PutCube(t, t, ranks, x, rest[1..], es[n + 1..], done, ds, rest[0]);
  }

  /** A cube that the other cofactor covers may be in the list already. */
  method AddCovered(m: Manager, cube: Edge, result: List<Edge>, ghost rest: seq<Edge>, ghost es: seq<Fn>,
                    ghost ds: seq<Fn>, ghost n: nat, ghost x: multiset<nat>, ghost s: Table)
    requires m.Valid() && result.Valid() && rest != [] && cube == rest[0] && n < |es|
    requires Retains(s, m.Tab(), x) && Stage(m.Tab(), x, rest, es[n..], result.Contents(), ds)
    modifies m`refs, m`ext, result, result.Repr
    ensures m.Valid() && Retains(s, m.Tab(), x)
    ensures result.Valid() && fresh(result.Repr - old(result.Repr))
    ensures Stage(m.Tab(), x, rest[1..], es[n + 1..], result.Contents(), if es[n] in ds then ds else ds + [es[n]])
  {
    hide Tables.Nodes, TableOk, CacheOk, Inverse, Retains, Stage, Denote, Beside;
    ghost var done := result.Contents();
    AddKeep(m.Tab(), m.ranks, x, rest, done, es, ds, n);
    PresentMeans(m.Tab(), m.ranks, done, ds, cube);
    var present := result.Present(cube, (a, b) => a == b);
    if present {
      AddDrop(m, cube, rest, done, es, ds, n, x, s);
    } else {
      result.Append(cube);
    }
  }

  /** One round of the second loop of prime_implicants. */
  method AddFirst(m: Manager, lit: Edge, T: Edge, cubes: List<Edge>, result: List<Edge>, ghost v: nat, ghost acc: seq<Fn>,
                  ghost es: seq<Fn>, ghost n: nat, ghost x: multiset<nat>, ghost s: Table)
    requires m.Valid() && cubes.Valid() && result.Valid() && cubes != result && cubes.Repr !! result.Repr && cubes.size > 0
    requires n < |es| && x[lit.node] > 0 && x[T.node] > 0 && Sem(m.den, lit) == Lit(v, false)
    requires Retains(s, m.Tab(), x)
    requires Stage(m.Tab(), x, cubes.Contents(), es[n..], result.Contents(), AddAll(v, acc, es[..n], Sem(m.den, T)))
    modifies m, cubes, cubes.Repr, result, result.Repr
    ensures m.Valid() && m.SameOrder(old(m.ranks), old(m.space), old(m.groups)) && m.reorder == old(m.reorder)
    ensures cubes.Valid() && cubes.Repr == old(cubes.Repr) && cubes.size == old(cubes.size) - 1
    ensures result.Valid() && fresh(result.Repr - old(result.Repr))
    ensures Retains(s, m.Tab(), x) && Sem(m.den, T) == old(Sem(m.den, T)) && Sem(m.den, lit) == Lit(v, false)
    ensures Stage(m.Tab(), x, cubes.Contents(), es[n + 1..], result.Contents(), AddAll(v, acc, es[..n + 1], Sem(m.den, T)))
  {
    hide Tables.Nodes, TableOk, CacheOk, Inverse, Retains, Lit, Stage, Denote, Beside, AddAll;
    ghost var rest := cubes.Contents();
    var cube := cubes.Pop();
    AddCube(m, lit, T, cube, result, rest, v, acc, es, n, x, s);
  }

  /** The first cube of the rest goes into the result, unless it is there already. */
  method AddCube(m: Manager, lit: Edge, T: Edge, cube: Edge, result: List<Edge>, ghost rest: seq<Edge>, ghost v: nat,
                 ghost acc: seq<Fn>, ghost es: seq<Fn>, ghost n: nat, ghost x: multiset<nat>, ghost s: Table)
    requires m.Valid() && result.Valid() && rest != [] && cube == rest[0]
    requires n < |es| && x[lit.node] > 0 && x[T.node] > 0 && Sem(m.den, lit) == Lit(v, false)
    requires Retains(s, m.Tab(), x)
    requires Stage(m.Tab(), x, rest, es[n..], result.Contents(), AddAll(v, acc, es[..n], Sem(m.den, T)))
    modifies m, result, result.Repr
    ensures m.Valid() && m.SameOrder(old(m.ranks), old(m.space), old(m.groups)) && m.reorder == old(m.reorder)
    ensures result.Valid() && fresh(result.Repr - old(result.Repr))
    ensures Retains(s, m.Tab(), x) && Sem(m.den, T) == old(Sem(m.den, T)) && Sem(m.den, lit) == Lit(v, false)
    ensures Stage(m.Tab(), x, rest[1..], es[n + 1..], result.Contents(), AddAll(v, acc, es[..n + 1], Sem(m.den, T)))
  {
    hide Tables.Nodes, TableOk, CacheOk, Inverse, Retains, Lit, Stage, Denote, Beside, AddAll;
    ghost var done, e := result.Contents(), Sem(m.den, T);
    ghost var ds := AddAll(v, acc, es[..n], e);
    AddAllStep(v, acc, es, n, e);
    AddKeep(m.Tab(), m.ranks, x, rest, done, es, ds, n);
    HeldIn(m.Tab(), m.ranks, cube);
    HeldIn(m.Tab(), m.ranks, T);
    var covered := Covers(m, T, cube);
    if !covered {
      var R := AddNext(m, lit, T, cube, rest, done, v, es, ds, n, x, s);
      result.Append(R);
    } else {
      AddCovered(m, cube, result, rest, es, ds, n, x, s);
    }
  }

  /** The second loop of prime_implicants: the cubes of the else-cofactor. */
  method AddList(m: Manager, lit: Edge, T: Edge, cubes: List<Edge>, result: List<Edge>, ghost v: nat, ghost acc: seq<Fn>,
                 ghost es: seq<Fn>, ghost x: multiset<nat>)
    requires m.Valid() && cubes.Valid() && result.Valid() && cubes != result && cubes.Repr !! result.Repr
    requires Stage(m.Tab(), x, cubes.Contents(), es, result.Contents(), acc)
    requires x[lit.node] > 0 && x[T.node] > 0 && Sem(m.den, lit) == Lit(v, false)
    modifies m, cubes, cubes.Repr, result, result.Repr
    ensures m.Valid() && m.SameOrder(old(m.ranks), old(m.space), old(m.groups)) && m.reorder == old(m.reorder)
    ensures result.Valid() && fresh(result.Repr - old(result.Repr))
    ensures m.ext == x + Tables.Nodes(result.Contents()) && Retains(old(m.Tab()), m.Tab(), x)
    ensures Denote(m.Tab(), result.Contents(), AddAll(v, acc, es, old(Sem(m.den, T))))
  {
    hide Tables.Nodes, TableOk, CacheOk, Inverse, Retains, Lit, Stage, Denote, AddAll;
    ghost var s, n, e := m.Tab(), 0, Sem(m.den, T);
    StageSize(s, x, cubes.Contents(), es, result.Contents(), acc);
    RetainsRefl(s, m.ranks, x);
    AddAllNone(v, acc, es, e);
    while cubes.size > 0
      invariant m.Valid() && m.SameOrder(old(m.ranks), old(m.space), old(m.groups)) && m.reorder == old(m.reorder)
      invariant cubes.Valid() && cubes.Repr == old(cubes.Repr) && n <= |es| && cubes.size == |es| - n
      invariant result.Valid() && fresh(result.Repr - old(result.Repr))
      invariant Retains(s, m.Tab(), x) && Sem(m.den, T) == e && Sem(m.den, lit) == Lit(v, false)
      invariant Stage(m.Tab(), x, cubes.Contents(), es[n..], result.Contents(), AddAll(v, acc, es[..n], e))
      decreases |es| - n
    {
      AddFirst(m, lit, T, cubes, result, v, acc, es, n, x, s);
      n := n + 1;
    }
    StageEnd(m.Tab(), x, cubes.Contents(), es[n..], result.Contents(), AddAll(v, acc, es[..n], e));
    assert es[..n] == es;
  }

  lemma StageSize(t: Table, x: multiset<nat>, es: seq<Edge>, ps: seq<Fn>, done: seq<Edge>, ds: seq<Fn>)
    requires Stage(t, x, es, ps, done, ds)
    ensures |es| == |ps| && ps[0..] == ps && x <= t.ext
  {
  }

  lemma AddAllNone(v: nat, acc: seq<Fn>, ps: seq<Fn>, other: Fn)
    ensures AddAll(v, acc, ps[..0], other) == acc
  {
  }

  lemma MoveRight(x: multiset<nat>, a: multiset<nat>, b: multiset<nat>, p: multiset<nat>, q: multiset<nat>)
    ensures x + a + b + p + q == (x + b + p + q) + a
    ensures x + a <= x + a + b && x <= x + b + p + q && b <= x + b + p + q && x + a + b <= x + a + b + p + q
  {
  }

  lemma MoveTop(x: multiset<nat>, b: multiset<nat>, r: multiset<nat>, p: multiset<nat>, q: multiset<nat>)
    ensures (x + b + p + q) + r == (x + q + b + r) + p
    ensures x + q <= x + b + p + q && x <= x + q
  {
  }

  lemma LitMeans(v: nat)
    ensures Lit(v, true) == Shannon(v, True(), iset{}) && Lit(v, false) == Not(Lit(v, true))
  {
  }

  /** Both literals of the variable. */
  method Literals(m: Manager, v: nat) returns (top: Edge, neg: Edge)
    requires m.Valid() && v < |m.ranks|
    modifies m
    ensures m.Valid() && m.SameOrder(old(m.ranks), old(m.space), old(m.groups)) && m.reorder == old(m.reorder)
    ensures m.ext == old(m.ext) + multiset{top.node} + multiset{neg.node} && Retains(old(m.Tab()), m.Tab(), old(m.ext))
    ensures Sem(m.den, top) == Lit(v, true) && Sem(m.den, neg) == Lit(v, false)
  {
    hide Tables.Nodes, TableOk, CacheOk, Inverse, Retains, Kept;
    ghost var s := m.Tab();
    top := Slots.CreateVar(m, v);
    ghost var t := m.Tab();
    neg := Compl(top);
    LitMeans(v);
    SemCompl(m.den, top);
    HeldAlive(t, m.ranks, top.node);
    AddRef(m, neg);
    KeptTrans(s, t, m.Tab());
    KeptEdge(t, m.Tab(), m.ranks, top);
    KeptEdge(t, m.Tab(), m.ranks, neg);
    KeptRetains(s, m.Tab(), m.ranks, s.ext);
  }

  /** The list denotes distinct primes that together are f. */
  ghost predicate Covering(t: Table, es: seq<Edge>, f: Fn) {
    exists ps :: Denote(t, es, ps) && PrimeCover(ps, f)
  }

  lemma DenoteSame(s: Table, t: Table, es: seq<Edge>, ps: seq<Fn>)
    requires Denote(s, es, ps) && t.g == s.g && t.den == s.den
    ensures Denote(t, es, ps)
  {
  }

  /** With both literals at hand. */
  lemma LiteralsAtHand(s: Table, t: Table, ranks: seq<nat>, x: multiset<nat>, tl: seq<Edge>, ts: seq<Fn>, el: seq<Edge>, es: seq<Fn>,
                       T: Edge, E: Edge, top: Edge, neg: Edge)
    requires TableOk(s, ranks) && TableOk(t, ranks) && Retains(s, t, s.ext)
    requires s.ext == x + Tables.Nodes(tl) + Tables.Nodes(el) && Denote(s, tl, ts) && Denote(s, el, es)
    requires t.ext == s.ext + multiset{top.node} + multiset{neg.node} && x[T.node] > 0 && x[E.node] > 0
    ensures var y := x + Tables.Nodes(el) + multiset{top.node} + multiset{neg.node};
      && t.ext == y + Tables.Nodes(tl) && y[T.node] > 0 && y[E.node] > 0 && y[top.node] > 0 && x <= y && Tables.Nodes(el) <= y
    ensures Denote(t, tl, ts) && Denote(t, el, es) && Retains(s, t, x)
    ensures Sem(t.den, T) == Sem(s.den, T) && Sem(t.den, E) == Sem(s.den, E)
  {
    hide TableOk, Denote;
    MoveRight(x, Tables.Nodes(tl), Tables.Nodes(el), multiset{top.node}, multiset{neg.node});
    DenoteRetained(s, t, ranks, s.ext, tl, ts);
    DenoteRetained(s, t, ranks, s.ext, el, es);
    HeldIn(s, ranks, T);
    HeldIn(s, ranks, E);
    RetainsSem(s, t, ranks, ranks, s.ext, T);
    RetainsSem(s, t, ranks, ranks, s.ext, E);
    RetainsLess(s, t, x, Tables.Nodes(tl) + Tables.Nodes(el));
    assert x + (Tables.Nodes(tl) + Tables.Nodes(el)) == s.ext;
  }

  lemma RetainsSub(s: Table, t: Table, x: multiset<nat>, y: multiset<nat>)
    requires Retains(s, t, y) && x <= y
    ensures Retains(s, t, x)
  {
    assert x + (y - x) == y;
    RetainsLess(s, t, x, y - x);
  }

  /** Between the loops: the positive literal is given up. */
  lemma TopGiven(s: Table, t: Table, u: Table, ranks: seq<nat>, x: multiset<nat>, el: seq<Edge>, es: seq<Fn>, done: seq<Edge>, ds: seq<Fn>,
                 top: Edge, neg: Edge, T: Edge)
    requires TableOk(s, ranks) && TableOk(t, ranks) && Denote(s, el, es) && Denote(t, done, ds) && u.g == t.g && u.den == t.den
    requires Retains(s, t, x + Tables.Nodes(el) + multiset{top.node} + multiset{neg.node}) && s.ext[T.node] > 0 && s.ext[neg.node] > 0 && x[T.node] > 0
    requires u.ext == x + multiset{neg.node} + Tables.Nodes(el) + Tables.Nodes(done)
    ensures Stage(u, x + multiset{neg.node}, el, es, done, ds)
    ensures Sem(u.den, T) == Sem(s.den, T) && Sem(u.den, neg) == Sem(s.den, neg)
  {
    hide TableOk, Retains, Denote, Tables.Nodes;
    var y := x + Tables.Nodes(el) + multiset{top.node} + multiset{neg.node};
    MoveRight(x, multiset{}, Tables.Nodes(el), multiset{top.node}, multiset{neg.node});
    DenoteSame(t, u, done, ds);
    DenoteRetained(s, t, ranks, y, el, es);
    DenoteSame(t, u, el, es);
    HeldIn(s, ranks, T);
    HeldIn(s, ranks, neg);
    RetainsSem(s, t, ranks, ranks, y, T);
    RetainsSem(s, t, ranks, ranks, y, neg);
  }

  /** prime_implicants until the positive literal is no longer needed. */
  method FirstHalf(m: Manager, v: nat, top: Edge, neg: Edge, T: Edge, E: Edge, tl: List<Edge>, ghost ec: seq<Edge>,
                   ghost ts: seq<Fn>, ghost es: seq<Fn>, ghost x: multiset<nat>)
    returns (result: List<Edge>)
    requires m.Valid() && tl.Valid() && Denote(m.Tab(), tl.Contents(), ts) && Denote(m.Tab(), ec, es)
    requires var y := x + Tables.Nodes(ec) + multiset{top.node} + multiset{neg.node};
      && m.ext == y + Tables.Nodes(tl.Contents()) && y[E.node] > 0 && y[top.node] > 0 && x <= y && Tables.Nodes(ec) <= y
    requires x[T.node] > 0 && m.ext[neg.node] > 0 && m.ext[T.node] > 0
    requires Sem(m.den, top) == Lit(v, true) && Sem(m.den, neg) == Lit(v, false)
    modifies m, tl, tl.Repr
    ensures m.Valid() && m.SameOrder(old(m.ranks), old(m.space), old(m.groups)) && m.reorder == old(m.reorder)
    ensures result.Valid() && fresh(result) && fresh(result.Repr) && Retains(old(m.Tab()), m.Tab(), x)
    ensures Stage(m.Tab(), x + multiset{neg.node}, ec, es, result.Contents(), LiftAll(v, ts, old(Sem(m.den, E))))
    ensures Sem(m.den, T) == old(Sem(m.den, T)) && Sem(m.den, neg) == Lit(v, false)
  {
    hide Tables.Nodes, TableOk, CacheOk, Inverse, Retains, Lit, Stage, Denote, LiftAll;
    ghost var s1 := m.Tab();
    ghost var y := x + Tables.Nodes(ec) + multiset{top.node} + multiset{neg.node};
    result := LiftList(m, top, E, tl, v, ts, y);
    ghost var s2, rc, acc := m.Tab(), result.Contents(), LiftAll(v, ts, Sem(s1.den, E));
    MoveTop(x, Tables.Nodes(ec), Tables.Nodes(rc), multiset{top.node}, multiset{neg.node});
    FreeHeld(m, top, x + multiset{neg.node} + Tables.Nodes(ec) + Tables.Nodes(rc));
    TopGiven(s1, s2, m.Tab(), m.ranks, x, ec, es, rc, acc, top, neg, T);
    RetainsSub(s1, s2, x, y);
    RetainsFree(s1, s2, m.Tab(), x);
  }

  /** prime_implicants up to the second loop. */
  method FirstPart(m: Manager, v: nat, T: Edge, tl: List<Edge>, E: Edge, ghost ec: seq<Edge>,
                   ghost ts: seq<Fn>, ghost es: seq<Fn>, ghost x: multiset<nat>)
    returns (neg: Edge, result: List<Edge>)
    requires m.Valid() && v < |m.ranks| && tl.Valid()
    requires m.ext == x + Tables.Nodes(tl.Contents()) + Tables.Nodes(ec)
    requires Denote(m.Tab(), tl.Contents(), ts) && Denote(m.Tab(), ec, es)
    requires x[T.node] > 0 && x[E.node] > 0
    modifies m, tl, tl.Repr
    ensures m.Valid() && m.SameOrder(old(m.ranks), old(m.space), old(m.groups)) && m.reorder == old(m.reorder)
    ensures result.Valid() && fresh(result) && fresh(result.Repr) && Retains(old(m.Tab()), m.Tab(), x)
    ensures Stage(m.Tab(), x + multiset{neg.node}, ec, es, result.Contents(), LiftAll(v, ts, old(Sem(m.den, E))))
    ensures Sem(m.den, T) == old(Sem(m.den, T)) && Sem(m.den, neg) == Lit(v, false)
  {
    hide Tables.Nodes, TableOk, CacheOk, Inverse, Retains, Lit, Stage, Denote, LiftAll;
    ghost var s, tc := m.Tab(), tl.Contents();
    var top;
    top, neg := Literals(m, v);
    ghost var s1 := m.Tab();
    LiteralsAtHand(s, s1, m.ranks, x, tc, ts, ec, es, T, E, top, neg);
    result := FirstHalf(m, v, top, neg, T, E, tl, ec, ts, es, x);
    RetainsTrans(s, s1, m.Tab(), x);
  }

  /** The rest of prime_implicants once the first loop is through. */
  method SecondHalf(m: Manager, v: nat, neg: Edge, T: Edge, el: List<Edge>, result: List<Edge>,
                    ghost acc: seq<Fn>, ghost es: seq<Fn>, ghost x: multiset<nat>)
    requires m.Valid() && el.Valid() && result.Valid() && el != result && el.Repr !! result.Repr
    requires Stage(m.Tab(), x + multiset{neg.node}, el.Contents(), es, result.Contents(), acc)
    requires x[T.node] > 0 && Sem(m.den, neg) == Lit(v, false)
    modifies m, el, el.Repr, result, result.Repr
    ensures m.Valid() && m.SameOrder(old(m.ranks), old(m.space), old(m.groups)) && m.reorder == old(m.reorder)
    ensures result.Valid() && fresh(result.Repr - old(result.Repr))
    ensures m.ext == x + Tables.Nodes(result.Contents()) && Retains(old(m.Tab()), m.Tab(), x)
    ensures Denote(m.Tab(), result.Contents(), AddAll(v, acc, es, old(Sem(m.den, T))))
  {
    hide Tables.Nodes, TableOk, CacheOk, Inverse, Retains, Lit, Stage, Denote, AddAll;
    ghost var s := m.Tab();
    AddList(m, neg, T, el, result, v, acc, es, x + multiset{neg.node});
    ghost var t, r := m.Tab(), result.Contents();
    Commute(x, multiset{neg.node}, Tables.Nodes(r));
    FreeHeld(m, neg, x + Tables.Nodes(r));
    DenoteSame(t, m.Tab(), r, AddAll(v, acc, es, Sem(s.den, T)));
    RetainsSub(s, t, x, x + multiset{neg.node});
    RetainsFree(s, t, m.Tab(), x);
  }

  /** prime_implicants: the list for v.T + v'.E from the lists for T and E. */
  method PrimeImplicants(m: Manager, v: nat, T: Edge, tl: List<Edge>, E: Edge, el: List<Edge>,
                         ghost ts: seq<Fn>, ghost es: seq<Fn>, ghost x: multiset<nat>)
    returns (result: List<Edge>)
    requires m.Valid() && v < |m.ranks| && tl.Valid() && el.Valid() && tl != el && tl.Repr !! el.Repr
    requires m.ext == x + Tables.Nodes(tl.Contents()) + Tables.Nodes(el.Contents())
    requires Denote(m.Tab(), tl.Contents(), ts) && Denote(m.Tab(), el.Contents(), es)
    requires x[T.node] > 0 && x[E.node] > 0
    requires Indep(Sem(m.den, T), v) && Indep(Sem(m.den, E), v)
    requires PrimeCover(ts, Sem(m.den, T)) && PrimeCover(es, Sem(m.den, E))
    modifies m, tl, tl.Repr, el, el.Repr
    ensures m.Valid() && m.SameOrder(old(m.ranks), old(m.space), old(m.groups)) && m.reorder == old(m.reorder)
    ensures result.Valid() && fresh(result) && fresh(result.Repr)
    ensures m.ext == x + Tables.Nodes(result.Contents()) && Retains(old(m.Tab()), m.Tab(), x)
    ensures Covering(m.Tab(), result.Contents(), Shannon(v, old(Sem(m.den, T)), old(Sem(m.den, E))))
  {
    hide Tables.Nodes, TableOk, CacheOk, Inverse, Retains, Lit, Stage, Denote, AddAll, LiftAll, PrimeCover, Shannon, Indep;
    ghost var s, ec := m.Tab(), el.Contents();
    var neg;
    neg, result := FirstPart(m, v, T, tl, E, ec, ts, es, x);
    ghost var t, acc := m.Tab(), LiftAll(v, ts, Sem(s.den, E));
    SecondHalf(m, v, neg, T, el, result, acc, es, x);
    RetainsTrans(s, t, m.Tab(), x);
    Combined(v, Sem(s.den, T), ts, Sem(s.den, E), es);
  }

  /** BDD_LIT_P */
  predicate OneVariable(g: Nodes, f: Edge) {
    f.node in g && ((g[f.node].thn == ONE && g[f.node].els == ZERO) || (g[f.node].thn == ZERO && g[f.node].els == ONE))
  }

  lemma LiteralEdge(s: Table, ranks: seq<nat>, f: Edge)
    requires TableOk(s, ranks) && OneVariable(s.g, f)
    ensures exists b :: Sem(s.den, f) == Lit(s.g[f.node].varid, b)
  {
    var v := s.g[f.node].varid;
    assert NodeDenotes(s.g, s.den, f.node);
    CoreKeys(s, ranks);
    ConstSem(s.den);
    LitMeans(v);
    NotNot(Lit(v, true));
    assert At(s.den, f.node) == Lit(v, true) || At(s.den, f.node) == Lit(v, false);
    assert Sem(s.den, f) == Lit(v, true) || Sem(s.den, f) == Lit(v, false);
  }

  /** The list that has f itself as its only cube is right for the constant 1 and for literals. */
  lemma SingleCover(s: Table, ranks: seq<nat>, f: Edge)
    requires TableOk(s, ranks) && (f == ONE || OneVariable(s.g, f))
    ensures Covering(s, [f], Sem(s.den, f))
  {
    var F := Sem(s.den, f);
    CoreKeys(s, ranks);
    ConstSem(s.den);
    if f == ONE {
      ConstantCover();
    } else {
      LiteralEdge(s, ranks, f);
      var b :| F == Lit(s.g[f.node].varid, b);
      LiteralCover(s.g[f.node].varid, b);
    }
    assert Denote(s, [f], [F]);
  }

  lemma EmptyCover(s: Table, ranks: seq<nat>, es: seq<Edge>)
    requires TableOk(s, ranks) && |es| == 0
    ensures Covering(s, es, Sem(s.den, ZERO)) && s.ext + Tables.Nodes(es) == s.ext
  {
    CoreKeys(s, ranks);
    ConstSem(s.den);
    ConstantCover();
    assert Denote(s, es, []);
  }

  lemma CoveringRetained(s: Table, t: Table, ranks: seq<nat>, x: multiset<nat>, es: seq<Edge>, f: Fn)
    requires TableOk(s, ranks) && TableOk(t, ranks) && Retains(s, t, x) && Tables.Nodes(es) <= x && Covering(s, es, f)
    ensures Covering(t, es, f)
  {
    var ps :| Denote(s, es, ps) && PrimeCover(ps, f);
    DenoteRetained(s, t, ranks, x, es, ps);
  }

  /** A list with f as its only element. */
  method Single(m: Manager, f: Edge) returns (l: List<Edge>)
    requires m.Valid() && Alive(m.nodes, m.refs, f) && (f == ONE || OneVariable(m.nodes, f))
    modifies m`refs, m`ext
    ensures m.Valid() && l.Valid() && fresh(l) && fresh(l.Repr)
    ensures m.ext == old(m.ext) + Tables.Nodes(l.Contents()) && Retains(old(m.Tab()), m.Tab(), old(m.ext))
    ensures Covering(m.Tab(), l.Contents(), old(Sem(m.den, f)))
  {
    hide Tables.Nodes, TableOk, CacheOk, Inverse, Retains, Covering, Kept;
    ghost var s := m.Tab();
    AddRef(m, f);
    l := new List();
    l.Push(f);
    assert l.Contents() == [f];
    NodesOne(f);
    KeptRetains(s, m.Tab(), m.ranks, s.ext);
    SingleCover(m.Tab(), m.ranks, f);
  }

  lemma TwoMore(x: multiset<nat>, a: nat, b: nat, r: multiset<nat>)
    ensures x <= x + multiset{a} + multiset{b} && x + multiset{a} + multiset{b} <= x + multiset{a} + multiset{b} + r
    ensures r <= x + multiset{a} + multiset{b} + r
    ensures (x + multiset{a} + multiset{b})[a] > 0 && (x + multiset{a} + multiset{b})[b] > 0
  {
  }

  /** sum_of_cubes_as_list_aux: distinct prime implicants of f that together are f. */
  method SumOfCubesAux(m: Manager, f: Edge) returns (l: List<Edge>)
    requires m.Valid() && Alive(m.nodes, m.refs, f)
    modifies m
    ensures m.Valid() && m.SameOrder(old(m.ranks), old(m.space), old(m.groups)) && m.reorder == old(m.reorder)
    ensures l.Valid() && fresh(l) && fresh(l.Repr)
    ensures m.ext == old(m.ext) + Tables.Nodes(l.Contents()) && Retains(old(m.Tab()), m.Tab(), old(m.ext))
    ensures Covering(m.Tab(), l.Contents(), old(Sem(m.den, f)))
    decreases TERMID - Rank(m.nodes, m.ranks, f), 1
  {
    hide Tables.Nodes, TableOk, CacheOk, Inverse, Retains, Covering;
    if f == ZERO {
      l := new List();
      EmptyCover(m.Tab(), m.ranks, l.Contents());
      RetainsRefl(m.Tab(), m.ranks, m.ext);
    } else if f.node == 0 || OneVariable(m.nodes, f) {
      l := Single(m, f);
    } else {
      l := SumOfNode(m, f);
    }
  }

  /** bdd_assign on both cofactors */
  method HoldTwo(m: Manager, T: Edge, E: Edge)
    requires m.Valid() && Alive(m.nodes, m.refs, T) && Alive(m.nodes, m.refs, E)
    modifies m`refs, m`ext
    ensures m.Valid() && m.ext == old(m.ext) + multiset{T.node} + multiset{E.node} && Retains(old(m.Tab()), m.Tab(), old(m.ext))
    ensures Alive(m.nodes, m.refs, T) && Alive(m.nodes, m.refs, E)
    ensures old(m.ext) <= m.ext && m.ext[T.node] > 0 && m.ext[E.node] > 0
  {
    hide Tables.Nodes, TableOk, CacheOk, Inverse, Retains, Kept;
    ghost var s := m.Tab();
    AddRef(m, T);
    ghost var s1 := m.Tab();
    KeptEdge(s, s1, m.ranks, T);
    KeptEdge(s, s1, m.ranks, E);
    AddRef(m, E);
    ghost var s2 := m.Tab();
    KeptEdge(s1, s2, m.ranks, T);
    KeptEdge(s1, s2, m.ranks, E);
    KeptTrans(s, s1, s2);
    KeptRetains(s, s2, m.ranks, s.ext);
    TwoMore(s.ext, T.node, E.node, multiset{});
  }

  method SumOfNode(m: Manager, f: Edge) returns (l: List<Edge>)
    requires m.Valid() && Alive(m.nodes, m.refs, f) && f.node in m.nodes
    modifies m
    ensures m.Valid() && m.SameOrder(old(m.ranks), old(m.space), old(m.groups)) && m.reorder == old(m.reorder)
    ensures l.Valid() && fresh(l) && fresh(l.Repr)
    ensures m.ext == old(m.ext) + Tables.Nodes(l.Contents()) && Retains(old(m.Tab()), m.Tab(), old(m.ext))
    ensures Covering(m.Tab(), l.Contents(), old(Sem(m.den, f)))
    decreases TERMID - Rank(m.nodes, m.ranks, f), 0
  {
    hide Tables.Nodes, TableOk, CacheOk, Inverse, Retains, Covering, Kept, Shannon, Indep;
    ghost var s := m.Tab();
    var v := m.nodes[f.node].varid;
    var T, E := CofPos(m.nodes, f), CofNeg(m.nodes, f);
    NodeCofactors(s, m.ranks, f);
    HoldTwo(m, T, E);
    ghost var s2 := m.Tab();
    l := SumOfKids(m, v, T, E);
    ghost var s3, c := m.Tab(), l.Contents();
    FreeTwo(m, T, E, s.ext, Tables.Nodes(c));
    RetainsSub(s2, s3, s.ext, s2.ext);
    RetainsTrans(s, s2, s3, s.ext);
    RetainsFree(s, s3, m.Tab(), s.ext);
    CoveringSame(s3, m.Tab(), c, Sem(s.den, f));
  }

  lemma CoveringSame(s: Table, t: Table, es: seq<Edge>, f: Fn)
    requires Covering(s, es, f) && t.g == s.g && t.den == s.den
    ensures Covering(t, es, f)
  {
    var ps :| Denote(s, es, ps) && PrimeCover(ps, f);
    DenoteSame(s, t, es, ps);
  }

  lemma NodeCofactors(s: Table, ranks: seq<nat>, f: Edge)
    requires TableOk(s, ranks) && Alive(s.g, s.refs, f) && f.node in s.g
    ensures var v, T, E := s.g[f.node].varid, CofPos(s.g, f), CofNeg(s.g, f);
      && v < |ranks| && Alive(s.g, s.refs, T) && Alive(s.g, s.refs, E)
      && Rank(s.g, ranks, f) < Rank(s.g, ranks, T) <= TERMID && Rank(s.g, ranks, f) < Rank(s.g, ranks, E) <= TERMID
      && Indep(Sem(s.den, T), v) && Indep(Sem(s.den, E), v)
      && T != E && Sem(s.den, f) == Shannon(v, Sem(s.den, T), Sem(s.den, E))
  {
    Slots.ChildAlive(s, ranks, f);
    Slots.NodeRanks(s, ranks, f);
    CofactorRanks(s.g, ranks, f);
    CofactorsIndep(s.g, ranks, s.den, f);
    SemExpand(s.g, s.den, f);
  }

  lemma CoverWitness(t: Table, es: seq<Edge>, f: Fn) returns (ps: seq<Fn>)
    requires Covering(t, es, f)
    ensures Denote(t, es, ps) && PrimeCover(ps, f)
  {
    ps :| Denote(t, es, ps) && PrimeCover(ps, f);
  }

  /** The lists of both cofactors, joined. */
  method SumOfKids(m: Manager, v: nat, T: Edge, E: Edge) returns (l: List<Edge>)
    requires m.Valid() && v < |m.ranks| && m.ext[T.node] > 0 && m.ext[E.node] > 0
    requires Alive(m.nodes, m.refs, T) && Alive(m.nodes, m.refs, E)
    requires Rank(m.nodes, m.ranks, T) <= TERMID && Rank(m.nodes, m.ranks, E) <= TERMID
    requires Indep(Sem(m.den, T), v) && Indep(Sem(m.den, E), v)
    modifies m
    ensures m.Valid() && m.SameOrder(old(m.ranks), old(m.space), old(m.groups)) && m.reorder == old(m.reorder)
    ensures l.Valid() && fresh(l) && fresh(l.Repr)
    ensures m.ext == old(m.ext) + Tables.Nodes(l.Contents()) && Retains(old(m.Tab()), m.Tab(), old(m.ext))
    ensures Covering(m.Tab(), l.Contents(), Shannon(v, old(Sem(m.den, T)), old(Sem(m.den, E))))
    decreases TERMID - Min(Rank(m.nodes, m.ranks, T), Rank(m.nodes, m.ranks, E)), 2
  {
    hide Tables.Nodes, TableOk, CacheOk, Inverse, Retains, Covering, Kept, Shannon, Indep;
    ghost var s := m.Tab();
    var tl := SumOfCubesAux(m, T);
    ghost var s1, tc, x := m.Tab(), tl.Contents(), s.ext;
    HeldRetained(s, s1, m.ranks, T);
    HeldRetained(s, s1, m.ranks, E);
    var el := SumOfCubesAux(m, E);
    ghost var s2 := m.Tab();
    TwoLists(s, s1, s2, m.ranks, T, E, tc);
    ghost var ts := CoverWitness(s2, tc, Sem(s.den, T));
    ghost var es := CoverWitness(s2, el.Contents(), Sem(s.den, E));
    l := PrimeImplicants(m, v, T, tl, E, el, ts, es, x);
    RetainsTrans(s, s2, m.Tab(), x);
  }

  /** Within one order the function tells the rank. */
  lemma RankOfFn(s: Table, t: Table, ranks: seq<nat>, e: Edge)
    requires TableOk(s, ranks) && TableOk(t, ranks) && In(s.g, e) && In(t.g, e) && Sem(s.den, e) == Sem(t.den, e)
    ensures Rank(s.g, ranks, e) == Rank(t.g, ranks, e)
  {
    RankNotBelow(s, t, ranks, e);
    RankNotBelow(t, s, ranks, e);
  }

  lemma RankNotBelow(s: Table, t: Table, ranks: seq<nat>, e: Edge)
    requires TableOk(s, ranks) && TableOk(t, ranks) && In(s.g, e) && In(t.g, e) && Sem(s.den, e) == Sem(t.den, e)
    ensures Rank(s.g, ranks, e) >= Rank(t.g, ranks, e)
  {
    if e.node in s.g && Rank(s.g, ranks, e) < Rank(t.g, ranks, e) {
      Slots.NodeRanks(s, ranks, e);
      TopVariableMatters(s.g, ranks, s.den, e);
      SemIndep(t.g, ranks, t.den, e, s.g[e.node].varid);
    }
  }

  lemma HeldRetained(s: Table, t: Table, ranks: seq<nat>, e: Edge)
    requires TableOk(s, ranks) && TableOk(t, ranks) && Retains(s, t, s.ext) && s.ext[e.node] > 0 && s.ext <= t.ext
    ensures Alive(t.g, t.refs, e) && Sem(t.den, e) == Sem(s.den, e) && Rank(t.g, ranks, e) == Rank(s.g, ranks, e)
  {
    hide TableOk, Retains;
    HeldIn(s, ranks, e);
    HeldIn(t, ranks, e);
    RetainsSem(s, t, ranks, ranks, s.ext, e);
    RankOfFn(s, t, ranks, e);
  }

  /** After both recursive calls. */
  lemma TwoLists(s: Table, t: Table, u: Table, ranks: seq<nat>, T: Edge, E: Edge, tc: seq<Edge>)
    requires TableOk(s, ranks) && TableOk(t, ranks) && TableOk(u, ranks) && Retains(s, t, s.ext) && Retains(t, u, t.ext)
    requires t.ext == s.ext + Tables.Nodes(tc) && t.ext <= u.ext && s.ext[T.node] > 0 && s.ext[E.node] > 0
    requires Covering(t, tc, Sem(s.den, T))
    ensures Retains(s, u, s.ext) && Covering(u, tc, Sem(s.den, T))
    ensures Sem(u.den, T) == Sem(s.den, T) && Sem(u.den, E) == Sem(s.den, E)
  {
    hide TableOk, Retains, Covering;
    assert s.ext <= t.ext;
    RetainsSub(t, u, s.ext, t.ext);
    RetainsTrans(s, t, u, s.ext);
    CoveringRetained(t, u, ranks, t.ext, tc, Sem(s.den, T));
    HeldRetained(s, u, ranks, T);
    HeldRetained(s, u, ranks, E);
  }

  /** bdd_sum_of_cubes_as_list: nothing is left allocated but the list. */
  method BddSumOfCubes(m: Manager, f: Pointer) returns (l: List<Edge>)
    requires m.Valid() && (f.To? ==> Alive(m.nodes, m.refs, f.e))
    modifies m
    ensures m.Valid() && m.SameOrder(old(m.ranks), old(m.space), old(m.groups)) && m.reorder == old(m.reorder)
    ensures l.Valid() && fresh(l) && fresh(l.Repr)
    ensures f.Void? ==> m.Tab() == old(m.Tab()) && l.Contents() == []
    ensures f.To? ==> m.ext == old(m.ext) + Tables.Nodes(l.Contents()) && Retains(old(m.Tab()), m.Tab(), old(m.ext))
    ensures f.To? ==> Covering(m.Tab(), l.Contents(), old(Sem(m.den, f.e)))
  {
    hide Tables.Nodes, TableOk, CacheOk, Inverse, Retains, Covering;
    if f.Void? {
      l := new List();
      return;
    }
    var save := m.reorder;
    m.reorder := false;
    l := SumOfCubesAux(m, f.e);
    m.reorder := save;
  }

  lemma ExceptHalves(ps: seq<Fn>, k: nat, p: Fn)
    requires k <= |ps|
    ensures SumExcept(ps, p) == SumExcept(ps[..k], p) + SumExcept(ps[k..], p)
  {
    forall a: Asg
      ensures a in SumExcept(ps, p) <==> a in SumExcept(ps[..k], p) + SumExcept(ps[k..], p)
    {
      if a in SumExcept(ps, p) {
        var i :| 0 <= i < |ps| && ps[i] != p && a in ps[i];
        if i < k { assert ps[..k][i] == ps[i]; } else { assert ps[k..][i - k] == ps[i]; }
      }
      if a in SumExcept(ps[..k], p) {
        var i :| 0 <= i < k && ps[..k][i] != p && a in ps[..k][i];
        assert ps[i] == ps[..k][i];
      }
      if a in SumExcept(ps[k..], p) {
        var i :| 0 <= i < |ps| - k && ps[k..][i] != p && a in ps[k..][i];
        assert ps[k + i] == ps[k..][i];
      }
    }
  }

  lemma ExceptOne(ps: seq<Fn>, p: Fn)
    requires |ps| <= 1
    ensures SumExcept(ps, p) == if ps == [] || ps[0] == p then iset{} else ps[0]
  {
    forall a: Asg
      ensures a in SumExcept(ps, p) <==> ps != [] && ps[0] != p && a in ps[0]
    {
    }
  }

  lemma DenoteParts(s: Table, es: seq<Edge>, ps: seq<Fn>, k: nat)
    requires Denote(s, es, ps) && k <= |es|
    ensures |es| == |ps| && Denote(s, es[..k], ps[..k]) && Denote(s, es[k..], ps[k..])
  {
  }

  lemma NodesParts(es: seq<Edge>, k: nat, x: multiset<nat>)
    requires k <= |es| && Tables.Nodes(es) <= x
    ensures Tables.Nodes(es[..k]) <= x && Tables.Nodes(es[k..]) <= x
  {
    hide Tables.Nodes;
    NodesOver(es[..k], es[k..]);
    assert es[..k] + es[k..] == es;
    PartsWithin(Tables.Nodes(es[..k]), Tables.Nodes(es[k..]), x);
  }

  lemma PartsWithin(a: multiset<nat>, b: multiset<nat>, x: multiset<nat>)
    requires a + b <= x
    ensures a <= x && b <= x
  {
    assert a <= a + b && b <= a + b;
  }

  /** The result of a list without elements, or with one. */
  method WithoutSmall(m: Manager, cubes: List<Edge>, cube: Edge, ghost ps: seq<Fn>) returns (F: Edge)
    requires m.Valid() && cubes.Valid() && Denote(m.Tab(), cubes.Contents(), ps) && cubes.size <= 1
    requires Tables.Nodes(cubes.Contents()) <= m.ext && In(m.nodes, cube)
    modifies m`refs, m`ext
    ensures m.Valid() && m.ext == old(m.ext) + multiset{F.node} && Retains(old(m.Tab()), m.Tab(), old(m.ext))
    ensures In(m.nodes, F) && Sem(m.den, F) == SumExcept(ps, old(Sem(m.den, cube)))
  {
    hide Tables.Nodes, TableOk, CacheOk, Inverse, Retains, Kept;
    ghost var s, es := m.Tab(), cubes.Contents();
    CoreKeys(s, m.ranks);
    ConstSem(s.den);
    ExceptOne(ps, Sem(s.den, cube));
    F := ZERO;
    if cubes.size == 1 {
      var cube1 := cubes.start.cont;
      assert cube1 == es[0] && In(s.g, es[0]) && Sem(s.den, es[0]) == ps[0];
      EqualEdges(s, m.ranks, cube1, cube);
      NodesCounted(es, 0);
      HeldIn(s, m.ranks, cube1);
      if cube1 != cube {
        F := cube1;
      }
    }
    AddRef(m, F);
    KeptRetains(s, m.Tab(), m.ranks, s.ext);
  }

  lemma EqualEdges(s: Table, ranks: seq<nat>, e: Edge, e': Edge)
    requires TableOk(s, ranks) && In(s.g, e) && In(s.g, e')
    ensures e == e' <==> Sem(s.den, e) == Sem(s.den, e')
  {
    Canonical(s.g, ranks, s.den, e, e');
  }

  /** list_without_cube_as_bdd: the disjunction of the cubes other than the given one. The list is
      taken apart and put together again. */
  method Without(m: Manager, cubes: List<Edge>, cube: Edge, ghost ps: seq<Fn>) returns (F: Edge)
    requires m.Valid() && cubes.Valid() && Denote(m.Tab(), cubes.Contents(), ps)
    requires Tables.Nodes(cubes.Contents()) <= m.ext && m.ext[cube.node] > 0
    modifies m, cubes, cubes.Repr
    ensures m.Valid() && m.SameOrder(old(m.ranks), old(m.space), old(m.groups)) && m.reorder == old(m.reorder)
    ensures cubes.Valid() && cubes.spine == old(cubes.spine) && cubes.Contents() == old(cubes.Contents()) && cubes.Repr <= old(cubes.Repr)
    ensures m.ext == old(m.ext) + multiset{F.node} && Retains(old(m.Tab()), m.Tab(), old(m.ext))
    ensures In(m.nodes, F) && Sem(m.den, F) == SumExcept(ps, old(Sem(m.den, cube)))
    decreases |ps|, 2
  {
    hide Tables.Nodes, TableOk, CacheOk, Inverse, Retains, Denote;
    HeldIn(m.Tab(), m.ranks, cube);
    if cubes.size < 2 {
      F := WithoutSmall(m, cubes, cube, ps);
    } else {
      F := WithoutLong(m, cubes, cube, ps);
    }
  }

  lemma WithoutParts(s: Table, es: seq<Edge>, ps: seq<Fn>, k: nat, p: Fn, x: multiset<nat>)
    requires Denote(s, es, ps) && 0 < k < |es| && Tables.Nodes(es) <= x
    ensures |es| == |ps| && Denote(s, es[..k], ps[..k]) && Denote(s, es[k..], ps[k..])
    ensures Tables.Nodes(es[..k]) <= x && Tables.Nodes(es[k..]) <= x && es[..k] + es[k..] == es
    ensures SumExcept(ps, p) == SumExcept(ps[..k], p) + SumExcept(ps[k..], p)
  {
    hide SumExcept, Tables.Nodes;
    DenoteParts(s, es, ps, k);
    hide Denote;
    NodesParts(es, k, x);
    ExceptHalves(ps, k, p);
  }

  method WithoutLong(m: Manager, cubes: List<Edge>, cube: Edge, ghost ps: seq<Fn>) returns (F: Edge)
    requires m.Valid() && cubes.Valid() && Denote(m.Tab(), cubes.Contents(), ps) && cubes.size >= 2
    requires Tables.Nodes(cubes.Contents()) <= m.ext && m.ext[cube.node] > 0
    modifies m, cubes, cubes.Repr
    ensures m.Valid() && m.SameOrder(old(m.ranks), old(m.space), old(m.groups)) && m.reorder == old(m.reorder)
    ensures cubes.Valid() && cubes.spine == old(cubes.spine) && cubes.Contents() == old(cubes.Contents()) && cubes.Repr <= old(cubes.Repr)
    ensures m.ext == old(m.ext) + multiset{F.node} && Retains(old(m.Tab()), m.Tab(), old(m.ext))
    ensures In(m.nodes, F) && Sem(m.den, F) == SumExcept(ps, old(Sem(m.den, cube)))
    decreases |ps|, 1
  {
    hide Tables.Nodes, TableOk, CacheOk, Inverse, Retains, Denote, SumExcept, Chain, HeadOf, LastOf;
    ghost var es, k := cubes.Contents(), cubes.size - cubes.size / 2;
    WithoutParts(m.Tab(), es, ps, k, Sem(m.den, cube), m.ext);
    var list2 := cubes.Bisect();
    F := WithoutBoth(m, cubes, list2, cube, ps[..k], ps[k..]);
    cubes.Concat(list2);
  }

  method WithoutBoth(m: Manager, cubes: List<Edge>, list2: List<Edge>, cube: Edge, ghost ps: seq<Fn>, ghost qs: seq<Fn>)
    returns (F: Edge)
    requires m.Valid() && cubes.Valid() && list2.Valid() && cubes != list2 && cubes.Repr !! list2.Repr
    requires Denote(m.Tab(), cubes.Contents(), ps) && Denote(m.Tab(), list2.Contents(), qs)
    requires Tables.Nodes(cubes.Contents()) <= m.ext && Tables.Nodes(list2.Contents()) <= m.ext && m.ext[cube.node] > 0
    requires ps != [] && qs != []
    modifies m, cubes, cubes.Repr, list2, list2.Repr
    ensures m.Valid() && m.SameOrder(old(m.ranks), old(m.space), old(m.groups)) && m.reorder == old(m.reorder)
    ensures cubes.Valid() && cubes.spine == old(cubes.spine) && cubes.Contents() == old(cubes.Contents()) && cubes.Repr <= old(cubes.Repr)
    ensures list2.Valid() && list2.spine == old(list2.spine) && list2.Contents() == old(list2.Contents()) && list2.Repr <= old(list2.Repr)
    ensures m.ext == old(m.ext) + multiset{F.node} && Retains(old(m.Tab()), m.Tab(), old(m.ext))
    ensures In(m.nodes, F)
    ensures Sem(m.den, F) == SumExcept(ps, old(Sem(m.den, cube))) + SumExcept(qs, old(Sem(m.den, cube)))
    decreases |ps| + |qs|, 0
  {
    hide Tables.Nodes, TableOk, CacheOk, Inverse, Retains, Denote, SumExcept, Sem, Chain, HeadOf, LastOf;
    ghost var s := m.Tab();
    HeldIn(s, m.ranks, cube);
    var R1 := Without(m, cubes, cube, ps);
    ghost var s1 := m.Tab();
    AfterFirst(s, s1, m.ranks, list2.Contents(), qs, cube);
    var R2 := Without(m, list2, cube, qs);
    ghost var s2 := m.Tab();
    RetainsSem(s1, s2, m.ranks, m.ranks, s1.ext, R1);
    F := OrTwo(m, R1, R2, s.ext);
    ThreeSteps(s, s1, s2, m.Tab(), s.ext);
  }

  lemma AfterFirst(s: Table, t: Table, ranks: seq<nat>, es: seq<Edge>, qs: seq<Fn>, cube: Edge)
    requires TableOk(s, ranks) && TableOk(t, ranks) && Retains(s, t, s.ext) && s.ext <= t.ext && Denote(s, es, qs)
    requires Tables.Nodes(es) <= s.ext && s.ext[cube.node] > 0
    ensures Denote(t, es, qs) && Tables.Nodes(es) <= t.ext && Sem(t.den, cube) == Sem(s.den, cube)
  {
    hide TableOk, Denote, Retains;
    DenoteRetained(s, t, ranks, s.ext, es, qs);
    HeldIn(s, ranks, cube);
    RetainsSem(s, t, ranks, ranks, s.ext, cube);
  }

  lemma ThreeSteps(s: Table, t: Table, u: Table, w: Table, x: multiset<nat>)
    requires Retains(s, t, x) && Retains(t, u, t.ext) && x <= t.ext && Retains(u, w, x)
    ensures Retains(s, w, x)
  {
    hide Retains;
    RetainsSub(t, u, x, t.ext);
    RetainsTrans(s, t, u, x);
    RetainsTrans(s, u, w, x);
  }

  /** bdd_or, after which both arguments are given up. */
  method OrTwo(m: Manager, R1: Edge, R2: Edge, ghost x: multiset<nat>) returns (F: Edge)
    requires m.Valid() && m.ext == x + multiset{R1.node} + multiset{R2.node}
    modifies m
    ensures m.Valid() && m.SameOrder(old(m.ranks), old(m.space), old(m.groups)) && m.reorder == old(m.reorder)
    ensures m.ext == x + multiset{F.node} && Retains(old(m.Tab()), m.Tab(), x)
    ensures In(m.nodes, F) && Sem(m.den, F) == old(Sem(m.den, R1)) + old(Sem(m.den, R2))
  {
    hide Tables.Nodes, TableOk, CacheOk, Inverse, Retains, Meaning, Kept;
    ghost var s := m.Tab();
    TwoMore(x, R1.node, R2.node, multiset{});
    HeldIn(s, m.ranks, R1);
    HeldIn(s, m.ranks, R2);
    CoreKeys(s, m.ranks);
    OrMeans(m.den, R1, R2);
    F := IteAux(m, Triple(R1, ONE, R2));
    ghost var t := m.Tab();
    KeptRetains(s, t, m.ranks, x);
    FreeTwo(m, R1, R2, x, multiset{F.node});
    RetainsFree(s, t, m.Tab(), x);
  }

  /** The state of the pruning loop: cs is the list, rs the result; F is f's function. */
  ghost predicate Pruning(s: Table, t: Table, x: multiset<nat>, f: Edge, F: Fn, cs: seq<Edge>, rs: seq<Edge>,
                          ps: seq<Fn>, cur: seq<Fn>, k: nat) {
    && PrimeCover(ps, F) && Pruned(ps, cur, k, F) && Denote(t, cs, cur) && Denote(t, rs, Left(cur, k))
    && t.ext == x + Tables.Nodes(cs) + Tables.Nodes(rs) && Retains(s, t, x)
    && In(t.g, f) && Sem(t.den, f) == F && (f.node == 0 || x[f.node] > 0)
  }

  lemma PruneBegin(s: Table, t: Table, ranks: seq<nat>, f: Edge, F: Fn, cs: seq<Edge>, ps: seq<Fn>)
    requires TableOk(s, ranks) && TableOk(t, ranks) && In(s.g, f) && Sem(s.den, f) == F && (f.node == 0 || s.ext[f.node] > 0)
    requires Denote(t, cs, ps) && PrimeCover(ps, F) && t.ext == s.ext + Tables.Nodes(cs) && Retains(s, t, s.ext)
    ensures Pruning(s, t, s.ext, f, F, cs, [], ps, ps, 0)
  {
    CoreKeys(s, ranks);
    CoreKeys(t, ranks);
  }

  /** The cube under inspection. */
  lemma PruneCube(s: Table, t: Table, ranks: seq<nat>, x: multiset<nat>, f: Edge, F: Fn, cs: seq<Edge>, rs: seq<Edge>,
                  ps: seq<Fn>, cur: seq<Fn>, k: nat)
    requires TableOk(t, ranks) && Pruning(s, t, x, f, F, cs, rs, ps, cur, k) && k < |cs|
    ensures |cur| == |cs| && cur[k] != iset{} && In(t.g, cs[k]) && Sem(t.den, cs[k]) == cur[k] && Denote(t, cs, cur)
    ensures Tables.Nodes(cs) <= t.ext && t.ext[cs[k].node] > 0
  {
    PruneStep(ps, cur, k, F) by {
      PrimeNonEmpty(ps[k], F);
    }
    PrimeNonEmpty(ps[k], F);
    assert In(t.g, cs[k]);
    NodesCounted(cs, k);
    var n := cs[k].node;
    assert Tables.Nodes(cs)[n] > 0;
    FrontWithin(x, Tables.Nodes(cs), Tables.Nodes(rs), n);
  }

  lemma FrontWithin(x: multiset<nat>, a: multiset<nat>, b: multiset<nat>, n: nat)
    ensures a <= x + a + b && x <= x + a + b && b <= x + a + b && (a[n] > 0 ==> (x + a + b)[n] > 0)
  {
  }

  /** What the comparison with f tells. */
  lemma PruneTest(s: Table, t: Table, u: Table, ranks: seq<nat>, x: multiset<nat>, f: Edge, F: Fn, cs: seq<Edge>, rs: seq<Edge>,
                  ps: seq<Fn>, cur: seq<Fn>, k: nat, R: Edge)
    requires TableOk(t, ranks) && TableOk(u, ranks) && Pruning(s, t, x, f, F, cs, rs, ps, cur, k) && k < |cs| == |cur|
    requires Retains(t, u, t.ext) && In(u.g, R) && Sem(u.den, R) == SumExcept(cur, cur[k])
    ensures R == f <==> SumExcept(cur, cur[k]) == F
    ensures Denote(u, cs, cur) && Denote(u, rs, Left(cur, k)) && Retains(s, u, x) && In(u.g, f) && Sem(u.den, f) == F
  {
    hide TableOk, Denote, SumExcept, Pruned, PrimeCover, Left;
    FrontWithin(x, Tables.Nodes(cs), Tables.Nodes(rs), f.node);
    DenoteRetained(t, u, ranks, t.ext, cs, cur);
    DenoteRetained(t, u, ranks, t.ext, rs, Left(cur, k));
    RetainsSub(t, u, x, t.ext);
    RetainsTrans(s, t, u, x);
    if f.node != 0 {
      RetainsSem(t, u, ranks, ranks, x, f);
    } else {
      CoreKeys(t, ranks);
      CoreKeys(u, ranks);
    }
    EqualEdges(u, ranks, R, f);
  }

  lemma BaseWithin(a: multiset<nat>, x: multiset<nat>, y: multiset<nat>)
    requires a <= x
    ensures a <= x + y
  {
  }

  lemma LeftPrefix(cur: seq<Fn>, cur': seq<Fn>, k: nat)
    requires k <= |cur| == |cur'| && forall i :: 0 <= i < k ==> cur[i] == cur'[i]
    ensures Left(cur, k) == Left(cur', k)
  {
  }

  /** A redundant cube has been replaced by the constant 0. */
  lemma PruneRedundant(s: Table, u: Table, w: Table, ranks: seq<nat>, x: multiset<nat>, f: Edge, F: Fn, cs: seq<Edge>, rs: seq<Edge>,
                       ps: seq<Fn>, cur: seq<Fn>, k: nat)
    requires TableOk(u, ranks) && k < |cs| == |cur| && PrimeCover(ps, F) && Pruned(ps, cur, k, F) && SumExcept(cur, cur[k]) == F
    requires Denote(u, cs, cur) && Denote(u, rs, Left(cur, k)) && Retains(s, u, x) && In(u.g, f) && Sem(u.den, f) == F
    requires w.g == u.g && w.den == u.den && FrozenKept(u.refs, w.refs) && (f.node == 0 || x[f.node] > 0)
    requires w.ext == x + Tables.Nodes(cs[k := ZERO]) + Tables.Nodes(rs)
    ensures Pruning(s, w, x, f, F, cs[k := ZERO], rs, ps, cur[k := iset{}], k + 1)
  {
    hide Denote, SumExcept, TableOk;
    var cur' := cur[k := iset{}];
    PruneMore(ps, cur, k, F);
    hide Pruned, PrimeCover;
    LeftPrefix(cur, cur', k);
    LeftNext(cur, k);
    LeftNext(cur', k);
    hide Left;
    ZeroPut(u, ranks, cs, cur, k);
    DenoteSame(u, w, cs[k := ZERO], cur');
    DenoteSame(u, w, rs, Left(cur, k));
    RetainsFree(s, u, w, x);
  }

  lemma LeftNext(cur: seq<Fn>, k: nat)
    requires k < |cur|
    ensures Left(cur, k + 1) == if cur[k] == iset{} then Left(cur, k) else Left(cur, k) + [cur[k]]
  {
  }

  lemma PruneMore(ps: seq<Fn>, cur: seq<Fn>, k: nat, F: Fn)
    requires PrimeCover(ps, F) && Pruned(ps, cur, k, F) && k < |ps|
    ensures cur[k] == ps[k] && cur[k] != iset{}
    ensures Pruned(ps, if SumExcept(cur, cur[k]) == F then cur[k := iset{}] else cur, k + 1, F)
  {
    PrimeNonEmpty(ps[k], F);
    PruneStep(ps, cur, k, F);
  }

  lemma ZeroPut(u: Table, ranks: seq<nat>, cs: seq<Edge>, cur: seq<Fn>, k: nat)
    requires TableOk(u, ranks) && Denote(u, cs, cur) && k < |cs|
    ensures Denote(u, cs[k := ZERO], cur[k := iset{}])
  {
    CoreKeys(u, ranks);
    ConstSem(u.den);
    hide TableOk;
    forall i {:trigger cs[i]} | 0 <= i < |cs|
      ensures In(u.g, cs[k := ZERO][i]) && Sem(u.den, cs[k := ZERO][i]) == cur[k := iset{}][i]
    {
      assert In(u.g, cs[i]) && Sem(u.den, cs[i]) == cur[i];
    }
  }

  lemma OnePut(u: Table, cs: seq<Edge>, cur: seq<Fn>, k: nat, rs: seq<Edge>, ds: seq<Fn>)
    requires Denote(u, cs, cur) && Denote(u, rs, ds) && k < |cs|
    ensures |cs| == |cur| && Denote(u, rs + [cs[k]], ds + [cur[k]])
  {
    assert In(u.g, cs[k]) && Sem(u.den, cs[k]) == cur[k];
  }

  /** A cube that is needed has gone to the result. */
  lemma PruneNeeded(s: Table, u: Table, w: Table, ranks: seq<nat>, x: multiset<nat>, f: Edge, F: Fn, cs: seq<Edge>, rs: seq<Edge>,
                    ps: seq<Fn>, cur: seq<Fn>, k: nat)
    requires TableOk(u, ranks) && k < |cs| == |cur| && PrimeCover(ps, F) && Pruned(ps, cur, k, F) && SumExcept(cur, cur[k]) != F
    requires Denote(u, cs, cur) && Denote(u, rs, Left(cur, k)) && Retains(s, u, x) && In(u.g, f) && Sem(u.den, f) == F
    requires w.g == u.g && w.den == u.den && FrozenKept(u.refs, w.refs) && (f.node == 0 || x[f.node] > 0)
    requires w.ext == x + Tables.Nodes(cs) + Tables.Nodes(rs + [cs[k]])
    ensures Pruning(s, w, x, f, F, cs, rs + [cs[k]], ps, cur, k + 1)
  {
    hide Denote, SumExcept, TableOk;
    PruneMore(ps, cur, k, F);
    hide Pruned, PrimeCover;
    LeftNext(cur, k);
    hide Left;
    OnePut(u, cs, cur, k, rs, Left(cur, k));
    DenoteSame(u, w, cs, cur);
    DenoteSame(u, w, rs + [cs[k]], Left(cur, k) + [cur[k]]);
    RetainsFree(s, u, w, x);
  }

  /** The accounts when element k of cs is replaced by z or goes to rs as well. */
  lemma PruneAccounts(x: multiset<nat>, cs: seq<Edge>, rs: seq<Edge>, k: nat, z: Edge, r: nat)
    requires k < |cs|
    ensures var n, a, b, d := cs[k].node, Tables.Nodes(cs[..k]), Tables.Nodes(cs[k + 1..]), Tables.Nodes(rs);
      && x + Tables.Nodes(cs) + d + multiset{r} == (x + a + b + d + multiset{r}) + multiset{n}
      && (x + a + b + d + multiset{r}) + multiset{z.node} == (x + Tables.Nodes(cs[k := z]) + d) + multiset{r}
    ensures x + Tables.Nodes(cs) + Tables.Nodes(rs) + multiset{r} + multiset{cs[k].node}
         == (x + Tables.Nodes(cs) + Tables.Nodes(rs + [cs[k]])) + multiset{r}
  {
    hide Tables.Nodes;
    NodesAt(cs, k, z);
    NodesLast(rs, cs[k]);
    Regrouped(x, Tables.Nodes(cs[..k]), Tables.Nodes(cs[k + 1..]), Tables.Nodes(rs), multiset{cs[k].node}, multiset{z.node}, multiset{r});
    Associate(x + Tables.Nodes(cs), Tables.Nodes(rs), multiset{cs[k].node});
    Commute(x + Tables.Nodes(cs) + Tables.Nodes(rs), multiset{r}, multiset{cs[k].node});
  }

  lemma Regrouped(x: multiset<nat>, a: multiset<nat>, b: multiset<nat>, d: multiset<nat>, n: multiset<nat>, z: multiset<nat>, r: multiset<nat>)
    ensures x + (a + n + b) + d + r == (x + a + b + d + r) + n
    ensures (x + a + b + d + r) + z == (x + (a + z + b) + d) + r
  {
  }

  /** The redundant cube is given up for a reference to the constant 0. */
  method SwapForZero(m: Manager, cube: Edge, ghost y: multiset<nat>)
    requires m.Valid() && m.ext == y + multiset{cube.node}
    modifies m`refs, m`ext
    ensures m.Valid() && m.ext == y + multiset{ZERO.node} && FrozenKept(old(m.refs), m.refs)
  {
    hide TableOk, CacheOk, Inverse, Kept, FrozenKept;
    ghost var refs0 := m.refs;
    FreeHeld(m, cube, y);
    ghost var refs1, t := m.refs, m.Tab();
    AddRef(m, ZERO);
    KeptFrozen(t, m.Tab());
    FrozenTrans(refs0, refs1, m.refs);
  }

  lemma KeptFrozen(s: Table, t: Table)
    requires Kept(s, t)
    ensures FrozenKept(s.refs, t.refs)
  {
  }

  /** What is left to do after the comparison, on the table: the redundant cube. */
  method TakeRedundant(m: Manager, f: Edge, cube: Edge, R: Edge, ghost s: Table, ghost x: multiset<nat>, ghost F: Fn,
                       ghost cs: seq<Edge>, ghost rs: seq<Edge>, ghost ps: seq<Fn>, ghost cur: seq<Fn>, ghost k: nat)
    requires m.Valid() && k < |cs| == |cur| && PrimeCover(ps, F) && Pruned(ps, cur, k, F) && SumExcept(cur, cur[k]) == F
    requires cube == cs[k] && (f.node == 0 || x[f.node] > 0)
    requires Denote(m.Tab(), cs, cur) && Denote(m.Tab(), rs, Left(cur, k)) && Retains(s, m.Tab(), x)
    requires In(m.nodes, f) && Sem(m.den, f) == F
    requires m.ext == x + Tables.Nodes(cs) + Tables.Nodes(rs) + multiset{R.node}
    modifies m`refs, m`ext
    ensures m.Valid() && Pruning(s, m.Tab(), x, f, F, cs[k := ZERO], rs, ps, cur[k := iset{}], k + 1)
  {
    hide Tables.Nodes, TableOk, CacheOk, Inverse, Retains, Denote, SumExcept, Pruned, PrimeCover, Left, Pruning, FrozenKept;
    ghost var u := m.Tab();
    PruneAccounts(x, cs, rs, k, ZERO, R.node);
    SwapForZero(m, cube, x + Tables.Nodes(cs[..k]) + Tables.Nodes(cs[k + 1..]) + Tables.Nodes(rs) + multiset{R.node});
    ghost var refs1 := m.refs;
    FreeHeld(m, R, x + Tables.Nodes(cs[k := ZERO]) + Tables.Nodes(rs));
    FrozenTrans(u.refs, refs1, m.refs);
    PruneRedundant(s, u, m.Tab(), m.ranks, x, f, F, cs, rs, ps, cur, k);
  }

  /** The same for a cube that is needed. */
  method TakeNeeded(m: Manager, f: Edge, cube: Edge, R: Edge, ghost s: Table, ghost x: multiset<nat>, ghost F: Fn,
                    ghost cs: seq<Edge>, ghost rs: seq<Edge>, ghost ps: seq<Fn>, ghost cur: seq<Fn>, ghost k: nat)
    requires m.Valid() && k < |cs| == |cur| && PrimeCover(ps, F) && Pruned(ps, cur, k, F) && SumExcept(cur, cur[k]) != F
    requires cube == cs[k] && (f.node == 0 || x[f.node] > 0)
    requires Denote(m.Tab(), cs, cur) && Denote(m.Tab(), rs, Left(cur, k)) && Retains(s, m.Tab(), x)
    requires In(m.nodes, f) && Sem(m.den, f) == F && m.ext[cube.node] > 0
    requires m.ext == x + Tables.Nodes(cs) + Tables.Nodes(rs) + multiset{R.node}
    modifies m`refs, m`ext
    ensures m.Valid() && Pruning(s, m.Tab(), x, f, F, cs, rs + [cube], ps, cur, k + 1)
  {
    hide Tables.Nodes, TableOk, CacheOk, Inverse, Retains, Denote, SumExcept, Pruned, PrimeCover, Left, Pruning, FrozenKept, Kept;
    ghost var u := m.Tab();
    HeldIn(u, m.ranks, cube);
    PruneAccounts(x, cs, rs, k, ZERO, R.node);
    AddRef(m, cube);
    ghost var t := m.Tab();
    KeptFrozen(u, t);
    FreeHeld(m, R, x + Tables.Nodes(cs) + Tables.Nodes(rs + [cube]));
    FrozenTrans(u.refs, t.refs, m.refs);
    PruneNeeded(s, u, m.Tab(), m.ranks, x, f, F, cs, rs, ps, cur, k);
  }

  lemma PruningParts(s: Table, t: Table, x: multiset<nat>, f: Edge, F: Fn, cs: seq<Edge>, rs: seq<Edge>,
                     ps: seq<Fn>, cur: seq<Fn>, k: nat)
    requires Pruning(s, t, x, f, F, cs, rs, ps, cur, k)
    ensures PrimeCover(ps, F) && Pruned(ps, cur, k, F) && |cs| == |cur| == |ps| && (f.node == 0 || x[f.node] > 0)
    ensures t.ext == x + Tables.Nodes(cs) + Tables.Nodes(rs)
  {
  }

  /** One round of the pruning loop, at element elem of the list. */
  method PruneOne(m: Manager, f: Edge, cubes: List<Edge>, elem: Elem<Edge>, result: List<Edge>, ghost s: Table, ghost x: multiset<nat>,
                  ghost F: Fn, ghost ps: seq<Fn>, ghost cur: seq<Fn>, ghost k: nat)
    returns (ghost cur': seq<Fn>)
    requires m.Valid() && cubes.Valid() && result.Valid() && cubes != result && cubes.Repr !! result.Repr
    requires k < cubes.size && |cubes.spine| == cubes.size && elem == cubes.spine[k]
    requires Pruning(s, m.Tab(), x, f, F, cubes.Contents(), result.Contents(), ps, cur, k)
    modifies m, cubes, cubes.Repr, result, result.Repr
    ensures m.Valid() && m.SameOrder(old(m.ranks), old(m.space), old(m.groups)) && m.reorder == old(m.reorder)
    ensures cubes.Valid() && cubes.spine == old(cubes.spine) && cubes.Repr <= old(cubes.Repr)
    ensures result.Valid() && fresh(result.Repr - old(result.Repr))
    ensures Pruning(s, m.Tab(), x, f, F, cubes.Contents(), result.Contents(), ps, cur', k + 1)
  {
    hide Tables.Nodes, TableOk, CacheOk, Inverse, Retains, Denote, SumExcept, Pruned, PrimeCover, Left, Pruning;
    var cube := elem.cont;
    var redundant;
    redundant, cur' := Inspect(m, f, cubes, cube, s, x, F, result.Contents(), ps, cur, k);
    PutOrZero(cubes, result, elem, k, cube, redundant);
  }

  /** The disjunction of the other cubes is formed and compared with f. */
  method Inspect(m: Manager, f: Edge, cubes: List<Edge>, cube: Edge, ghost s: Table, ghost x: multiset<nat>, ghost F: Fn,
                 ghost rs: seq<Edge>, ghost ps: seq<Fn>, ghost cur: seq<Fn>, ghost k: nat)
    returns (redundant: bool, ghost cur': seq<Fn>)
    requires m.Valid() && cubes.Valid() && k < cubes.size && cube == cubes.Contents()[k]
    requires Pruning(s, m.Tab(), x, f, F, cubes.Contents(), rs, ps, cur, k)
    modifies m, cubes, cubes.Repr
    ensures m.Valid() && m.SameOrder(old(m.ranks), old(m.space), old(m.groups)) && m.reorder == old(m.reorder)
    ensures cubes.Valid() && cubes.spine == old(cubes.spine) && cubes.Repr <= old(cubes.Repr) && cubes.Contents() == old(cubes.Contents())
    ensures redundant ==> Pruning(s, m.Tab(), x, f, F, cubes.Contents()[k := ZERO], rs, ps, cur', k + 1)
    ensures !redundant ==> Pruning(s, m.Tab(), x, f, F, cubes.Contents(), rs + [cube], ps, cur', k + 1)
  {
    hide Tables.Nodes, TableOk, CacheOk, Inverse, Retains, Denote, SumExcept, Pruned, PrimeCover, Left, Pruning;
    ghost var t, cs := m.Tab(), cubes.Contents();
    PruningParts(s, t, x, f, F, cs, rs, ps, cur, k);
    PruneCube(s, t, m.ranks, x, f, F, cs, rs, ps, cur, k);
    var R := Without(m, cubes, cube, cur);
    redundant, cur' := Decide(m, f, cube, R, s, t, x, F, cs, rs, ps, cur, k);
  }

  /** No real delete: the redundant cube's element gets a harmless 0. */
  method PutOrZero(cubes: List<Edge>, result: List<Edge>, elem: Elem<Edge>, ghost k: nat, cube: Edge, redundant: bool)
    requires cubes.Valid() && result.Valid() && cubes != result && cubes.Repr !! result.Repr
    requires k < cubes.size && |cubes.spine| == cubes.size && elem == cubes.spine[k]
    modifies elem, result, result.Repr
    ensures cubes.Valid() && cubes.Contents() == if redundant then old(cubes.Contents())[k := ZERO] else old(cubes.Contents())
    ensures result.Valid() && fresh(result.Repr - old(result.Repr))
    ensures result.Contents() == if redundant then old(result.Contents()) else old(result.Contents()) + [cube]
  {
    if redundant {
      cubes.SetContents(elem, k, ZERO);
    } else {
      result.Append(cube);
    }
  }

  /** The comparison with f, and what follows from it for the references. */
  method Decide(m: Manager, f: Edge, cube: Edge, R: Edge, ghost s: Table, ghost t: Table, ghost x: multiset<nat>, ghost F: Fn,
                ghost cs: seq<Edge>, ghost rs: seq<Edge>, ghost ps: seq<Fn>, ghost cur: seq<Fn>, ghost k: nat)
    returns (redundant: bool, ghost cur': seq<Fn>)
    requires m.Valid() && TableOk(t, m.ranks) && Pruning(s, t, x, f, F, cs, rs, ps, cur, k) && k < |cs| && cube == cs[k]
    requires Retains(t, m.Tab(), t.ext) && m.ext == t.ext + multiset{R.node}
    requires |cur| == |cs| && In(m.nodes, R) && Sem(m.den, R) == SumExcept(cur, cur[k]) && m.ext[cube.node] > 0
    modifies m`refs, m`ext
    ensures m.Valid()
    ensures redundant ==> Pruning(s, m.Tab(), x, f, F, cs[k := ZERO], rs, ps, cur', k + 1)
    ensures !redundant ==> Pruning(s, m.Tab(), x, f, F, cs, rs + [cube], ps, cur', k + 1)
  {
    hide Tables.Nodes, TableOk, CacheOk, Inverse, Retains, Denote, SumExcept, Pruned, PrimeCover, Left, Pruning;
    PruningParts(s, t, x, f, F, cs, rs, ps, cur, k);
    PruneTest(s, t, m.Tab(), m.ranks, x, f, F, cs, rs, ps, cur, k, R);
    redundant := R == f;
    if redundant {
      TakeRedundant(m, f, cube, R, s, x, F, cs, rs, ps, cur, k);
      cur' := cur[k := iset{}];
    } else {
      TakeNeeded(m, f, cube, R, s, x, F, cs, rs, ps, cur, k);
      cur' := cur;
    }
  }

  /** Distinct primes that together are f, and no one can be left out. */
  ghost predicate Minimal(t: Table, es: seq<Edge>, f: Fn) {
    exists ps :: Denote(t, es, ps) && PrimeCover(ps, f) && Irredundant(ps, f)
  }

  lemma PruningDone(s: Table, t: Table, x: multiset<nat>, f: Edge, F: Fn, cs: seq<Edge>, rs: seq<Edge>,
                    ps: seq<Fn>, cur: seq<Fn>, k: nat)
    requires Pruning(s, t, x, f, F, cs, rs, ps, cur, k) && k == |cs|
    ensures Minimal(t, rs, F) && Retains(s, t, x) && t.ext == x + Tables.Nodes(rs) + Tables.Nodes(cs)
  {
    PruneDone(ps, cur, F);
    Commute(x, Tables.Nodes(cs), Tables.Nodes(rs));
  }

  lemma MinimalSame(s: Table, t: Table, es: seq<Edge>, f: Fn)
    requires Minimal(s, es, f) && t.g == s.g && t.den == s.den
    ensures Minimal(t, es, f)
  {
    var ps :| Denote(s, es, ps) && PrimeCover(ps, f) && Irredundant(ps, f);
    DenoteSame(s, t, es, ps);
  }

  /** bdd_list_free with bdd_free on the contents */
  method FreeList(m: Manager, l: List<Edge>, ghost y: multiset<nat>)
    requires m.Valid() && l.Valid() && m.ext == y + Tables.Nodes(l.Contents())
    modifies m`refs, m`ext, l, l.Repr
    ensures m.Valid() && m.ext == y && FrozenKept(old(m.refs), m.refs)
  {
    hide Tables.Nodes, TableOk, CacheOk, Inverse, FrozenKept;
    FrozenRefl(m.refs);
    while l.size > 0
      invariant m.Valid() && l.Valid() && l.Repr == old(l.Repr) && m.ext == y + Tables.Nodes(l.Contents())
      invariant FrozenKept(old(m.refs), m.refs)
      decreases l.size
    {
      ghost var es, refs := l.Contents(), m.refs;
      var e := l.Pop();
      NodesFirst(es);
      Commute(y, multiset{e.node}, Tables.Nodes(es[1..]));
      Associate(y, multiset{e.node}, Tables.Nodes(es[1..]));
      FreeHeld(m, e, y + Tables.Nodes(es[1..]));
      FrozenTrans(old(m.refs), refs, m.refs);
    }
    NoNodes(y, l.Contents());
  }

  lemma FrozenRefl(a: Refs)
    ensures FrozenKept(a, a)
  {
  }

  lemma NoNodes(y: multiset<nat>, es: seq<Edge>)
    requires |es| == 0
    ensures y + Tables.Nodes(es) == y
  {
  }

  /** bdd_irredundant_sum_of_cubes_as_list: distinct prime implicants of f whose disjunction is f and of
      which none can be left out; the empty list for no function. */
  method BddIrredundant(m: Manager, f: Pointer) returns (result: List<Edge>)
    requires m.Valid() && (f.To? ==> Alive(m.nodes, m.refs, f.e) && (f.e.node == 0 || m.ext[f.e.node] > 0))
    modifies m
    ensures m.Valid() && m.SameOrder(old(m.ranks), old(m.space), old(m.groups)) && m.reorder == old(m.reorder)
    ensures result.Valid() && fresh(result) && fresh(result.Repr)
    ensures f.Void? ==> m.Tab() == old(m.Tab()) && result.Contents() == []
    ensures f.To? ==> m.ext == old(m.ext) + Tables.Nodes(result.Contents()) && Retains(old(m.Tab()), m.Tab(), old(m.ext))
    ensures f.To? ==> Minimal(m.Tab(), result.Contents(), old(Sem(m.den, f.e)))
  {
    hide Tables.Nodes, TableOk, CacheOk, Inverse, Retains, Covering, Minimal, Pruning;
    if f.Void? {
      result := new List();
      return;
    }
    var save := m.reorder;
    m.reorder := false;
    result := IrredundantAux(m, f.e);
    m.reorder := save;
  }

  method IrredundantAux(m: Manager, f: Edge) returns (result: List<Edge>)
    requires m.Valid() && Alive(m.nodes, m.refs, f) && (f.node == 0 || m.ext[f.node] > 0)
    modifies m
    ensures m.Valid() && m.SameOrder(old(m.ranks), old(m.space), old(m.groups)) && m.reorder == old(m.reorder)
    ensures result.Valid() && fresh(result) && fresh(result.Repr)
    ensures m.ext == old(m.ext) + Tables.Nodes(result.Contents()) && Retains(old(m.Tab()), m.Tab(), old(m.ext))
    ensures Minimal(m.Tab(), result.Contents(), old(Sem(m.den, f)))
  {
    hide Tables.Nodes, TableOk, CacheOk, Inverse, Retains, Covering, Minimal, Pruning;
    ghost var s, F := m.Tab(), Sem(m.den, f);
    AliveIn(m.nodes, m.refs, f);
    var cubes := BddSumOfCubes(m, To(f));
    result := new List();
    ghost var ps := PruningStart(s, m.Tab(), m.ranks, f, F, cubes.Contents(), result.Contents());
    PruneAll(m, f, cubes, result, s, s.ext, F, ps);
  }

  lemma PruningStart(s: Table, t: Table, ranks: seq<nat>, f: Edge, F: Fn, cs: seq<Edge>, rs: seq<Edge>) returns (ps: seq<Fn>)
    requires TableOk(s, ranks) && TableOk(t, ranks) && In(s.g, f) && Sem(s.den, f) == F && (f.node == 0 || s.ext[f.node] > 0)
    requires Covering(t, cs, F) && t.ext == s.ext + Tables.Nodes(cs) && Retains(s, t, s.ext) && |rs| == 0
    ensures Pruning(s, t, s.ext, f, F, cs, rs, ps, ps, 0)
  {
    ps := CoverWitness(t, cs, F);
    PruneBegin(s, t, ranks, f, F, cs, ps);
    assert rs == [];
  }

  method PruneAll(m: Manager, f: Edge, cubes: List<Edge>, result: List<Edge>, ghost s: Table, ghost x: multiset<nat>,
                  ghost F: Fn, ghost ps: seq<Fn>)
    requires m.Valid() && cubes.Valid() && result.Valid() && cubes != result && cubes.Repr !! result.Repr
    requires Pruning(s, m.Tab(), x, f, F, cubes.Contents(), result.Contents(), ps, ps, 0)
    modifies m, cubes, cubes.Repr, result, result.Repr
    ensures m.Valid() && m.SameOrder(old(m.ranks), old(m.space), old(m.groups)) && m.reorder == old(m.reorder)
    ensures result.Valid() && fresh(result.Repr - old(result.Repr))
    ensures Minimal(m.Tab(), result.Contents(), F)
    ensures m.ext == x + Tables.Nodes(result.Contents()) && Retains(s, m.Tab(), x)
  {
    hide Tables.Nodes, TableOk, CacheOk, Inverse, Retains, Minimal, Pruning, Denote, Pruned, PrimeCover, Left, FrozenKept;
    PruneEach(m, f, cubes, result, s, x, F, ps);
    ghost var t, cs, rs := m.Tab(), cubes.Contents(), result.Contents();
    ghost var cur :| Pruning(s, t, x, f, F, cs, rs, ps, cur, |cs|);
    PruningDone(s, t, x, f, F, cs, rs, ps, cur, |cs|);
    FreeList(m, cubes, x + Tables.Nodes(rs));
    MinimalSame(t, m.Tab(), rs, F);
    RetainsFree(s, t, m.Tab(), x);
  }

  /** The loop over the elements of the list. */
  method PruneEach(m: Manager, f: Edge, cubes: List<Edge>, result: List<Edge>, ghost s: Table, ghost x: multiset<nat>,
                   ghost F: Fn, ghost ps: seq<Fn>)
    requires m.Valid() && cubes.Valid() && result.Valid() && cubes != result && cubes.Repr !! result.Repr
    requires Pruning(s, m.Tab(), x, f, F, cubes.Contents(), result.Contents(), ps, ps, 0)
    modifies m, cubes, cubes.Repr, result, result.Repr
    ensures m.Valid() && m.SameOrder(old(m.ranks), old(m.space), old(m.groups)) && m.reorder == old(m.reorder)
    ensures cubes.Valid() && cubes.Repr <= old(cubes.Repr)
    ensures result.Valid() && fresh(result.Repr - old(result.Repr))
    ensures exists cur :: Pruning(s, m.Tab(), x, f, F, cubes.Contents(), result.Contents(), ps, cur, cubes.size)
  {
    hide Tables.Nodes, TableOk, CacheOk, Inverse, Retains, Minimal, Pruning, Denote, Pruned, PrimeCover, Left;
    ghost var cur, k := ps, 0;
    var elem := cubes.start;
    while elem != null
      invariant m.Valid() && m.SameOrder(old(m.ranks), old(m.space), old(m.groups)) && m.reorder == old(m.reorder)
      invariant cubes.Valid() && cubes.spine == old(cubes.spine) && cubes.Repr <= old(cubes.Repr)
      invariant result.Valid() && fresh(result.Repr - old(result.Repr))
      invariant k <= cubes.size && elem == HeadOf(cubes.spine[k..])
      invariant Pruning(s, m.Tab(), x, f, F, cubes.Contents(), result.Contents(), ps, cur, k)
      decreases |cubes.spine| - k
    {
      cur := PruneOne(m, f, cubes, elem, result, s, x, F, ps, cur, k);
      k := k + 1;
      elem := elem.next;
    }
  }
}
