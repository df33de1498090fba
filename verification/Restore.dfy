/** Restoring a dumped vector: every element gets its function back, in whatever order the variables
    are now. */
module Restore {
  import opened Functions
  import opened Graph
  import opened RefCount
  import opened State
  import opened Tables
  import opened IteOps
  import opened ConstrainOps
  import opened Cubes
  import opened Expressions
  import opened DumpFormat
  import opened Operators
  import opened Groups
  import N = NewVar
  import Slots
  import S = SumOfCubes
  import D = Dump
  import F = FactorVec

  lemma Rearranged(y: multiset<nat>, v: nat, t: nat, e: nat, r: nat)
    ensures y + multiset{v} + multiset{t} + multiset{e} + multiset{r}
         == (y + multiset{t} + multiset{e} + multiset{r}) + multiset{v}
    ensures y + multiset{t} + multiset{e} + multiset{r} == (y + multiset{e} + multiset{r}) + multiset{t}
    ensures y + multiset{e} + multiset{r} == (y + multiset{r}) + multiset{e}
    ensures y <= y + multiset{v} + multiset{t} + multiset{e}
  {
  }

  /** The three operands of a restored node, each with a reference. */
  ghost predicate Operands(s: Table, t: Table, y: multiset<nat>, v: Edge, T: Edge, E: Edge, f: Fn, g: Fn, h: Fn) {
    && t.ext == y + multiset{v.node} + multiset{T.node} + multiset{E.node}
    && Alive(t.g, t.refs, v) && Alive(t.g, t.refs, T) && Alive(t.g, t.refs, E)
    && Sem(t.den, v) == f && Sem(t.den, T) == g && Sem(t.den, E) == h
    && Retains(s, t, y)
  }

  /** bdd_create_var, and references to the restored children; bdd_not changes the inverter bit only. */
  method TakeOperands(m: Manager, varid: nat, T: Edge, E: Edge) returns (v: Edge)
    requires m.Valid() && varid < |m.ranks| && m.ext[T.node] > 0 && m.ext[E.node] > 0
    modifies m
    ensures m.Valid() && m.SameOrder(old(m.ranks), old(m.space), old(m.groups)) && m.reorder == old(m.reorder)
    ensures Operands(old(m.Tab()), m.Tab(), old(m.ext), v, T, E, Lit(varid, true), old(Sem(m.den, T)), old(Sem(m.den, E)))
  {
    hide TableOk, CacheOk, Inverse, Retains, Kept, Shannon;
    ghost var s := m.Tab();
    S.HeldIn(s, m.ranks, T);
    S.HeldIn(s, m.ranks, E);
    S.LitMeans(varid);
    v := Slots.CreateVar(m, varid);
    ghost var t := m.Tab();
    HeldAlive(t, m.ranks, v.node);
    KeptEdge(s, t, m.ranks, T);
    KeptEdge(s, t, m.ranks, E);
    S.HoldTwo(m, T, E);
    KeptRetains(s, t, m.ranks, s.ext);
    HeldTwo(s, t, m.Tab(), m.ranks, v, T, E);
  }

  lemma HeldTwo(s: Table, t: Table, u: Table, ranks: seq<nat>, v: Edge, T: Edge, E: Edge)
    requires TableOk(t, ranks) && TableOk(u, ranks) && Retains(s, t, s.ext) && Retains(t, u, t.ext)
    requires t.ext == s.ext + multiset{v.node} && u.ext == t.ext + multiset{T.node} + multiset{E.node}
    requires Alive(t.g, t.refs, T) && Alive(t.g, t.refs, E)
    requires s.ext[T.node] > 0 && s.ext[E.node] > 0
    ensures Retains(s, u, s.ext) && Alive(u.g, u.refs, v) && Alive(u.g, u.refs, T) && Alive(u.g, u.refs, E)
    ensures Sem(u.den, v) == Sem(t.den, v) && Sem(u.den, T) == Sem(t.den, T) && Sem(u.den, E) == Sem(t.den, E)
  {
    hide TableOk, Retains;
    S.HeldIn(t, ranks, v);
    S.HeldIn(u, ranks, v);
    S.HeldIn(u, ranks, T);
    S.HeldIn(u, ranks, E);
    RetainsSem(t, u, ranks, ranks, t.ext, v);
    AliveIn(t.g, t.refs, T);
    AliveIn(t.g, t.refs, E);
    RetainsSem(t, u, ranks, ranks, t.ext, T);
    RetainsSem(t, u, ranks, ranks, t.ext, E);
    S.RetainsSub(t, u, s.ext, t.ext);
    RetainsTrans(s, t, u, s.ext);
  }

  /** The number of variables once v is one. */
  function Most(n: nat, v: nat): nat {
    if v < n then n else v + 1
  }

  /** The number of variables once those of all records exist. */
  function Fitted(n: nat, rs: seq<NodeRec>): nat {
    if rs == [] then n else Most(Fitted(n, rs[..|rs| - 1]), rs[|rs| - 1].varid)
  }

  lemma FittedNext(n: nat, rs: seq<NodeRec>, i: nat)
    requires i < |rs|
    ensures Fitted(n, rs[..i + 1]) == Most(Fitted(n, rs[..i]), rs[i].varid)
  {
    assert rs[..i + 1][..i] == rs[..i];
  }

  /** bdd_restore_node on a decoded record */
  method RestoreNode(m: Manager, r: NodeRec, nodes: seq<Edge>, ghost fns: seq<Fn>) returns (R: Edge)
    requires m.Valid() && Contiguous(LayoutOf(m)) && S.Denote(m.Tab(), nodes, fns) && Tables.Nodes(nodes) <= m.ext
    requires r.varid < TERMID && r.thn < |nodes| && r.els < |nodes|
    modifies m
    ensures m.Valid() && Contiguous(LayoutOf(m)) && |m.ranks| == Most(old(|m.ranks|), r.varid) && m.reorder == old(m.reorder)
    ensures |nodes| == |fns| && m.ext == old(m.ext) + multiset{R.node} && Retains(old(m.Tab()), m.Tab(), old(m.ext))
    ensures In(m.nodes, R) && Sem(m.den, R) == Ite(Lit(r.varid, true), fns[r.thn], NotIf(fns[r.els], r.neg))
  {
    hide TableOk, CacheOk, Inverse, Retains, Contiguous, Ite, Lit, Tables.Nodes, S.Denote;
    ghost var s := m.Tab();
    N.MakeFit(m, r.varid);
    var T, E := nodes[r.thn], NegIf(nodes[r.els], r.neg);
    Children(s, nodes, fns, r);
    var v := TakeOperands(m, r.varid, T, E);
    R := BranchAndFree(m, v, T, E, Lit(r.varid, true), fns[r.thn], NotIf(fns[r.els], r.neg), s);
  }

  /** bdd_ite on the operands, which are then given up. */
  method BranchAndFree(m: Manager, v: Edge, T: Edge, E: Edge, ghost f: Fn, ghost g: Fn, ghost h: Fn, ghost s: Table)
    returns (R: Edge)
    requires m.Valid() && Contiguous(LayoutOf(m)) && Operands(s, m.Tab(), s.ext, v, T, E, f, g, h)
    modifies m
    ensures m.Valid() && Contiguous(LayoutOf(m)) && |m.ranks| == old(|m.ranks|) && m.reorder == old(m.reorder)
    ensures m.ext == s.ext + multiset{R.node} && Retains(s, m.Tab(), s.ext)
    ensures In(m.nodes, R) && Sem(m.den, R) == Ite(f, g, h)
  {
    hide TableOk, CacheOk, Inverse, Retains, Contiguous, Ite;
    ghost var t := m.Tab();
    var R' := BddIte(m, To(v), To(T), To(E));
    R := R'.e;
    ghost var u := m.Tab();
    Rearranged(s.ext, v.node, T.node, E.node, R.node);
    S.RetainsSub(t, u, s.ext, t.ext);
    RetainsTrans(s, t, u, s.ext);
    FreeThree(m, v, T, E, s.ext + multiset{R.node});
    RetainsFree(s, u, m.Tab(), s.ext);
  }

  lemma Children(s: Table, nodes: seq<Edge>, fns: seq<Fn>, r: NodeRec)
    requires S.Denote(s, nodes, fns) && Tables.Nodes(nodes) <= s.ext && r.thn < |nodes| && r.els < |nodes|
    ensures |nodes| == |fns| && s.ext[nodes[r.thn].node] > 0 && s.ext[nodes[r.els].node] > 0
    ensures Sem(s.den, nodes[r.thn]) == fns[r.thn] && Sem(s.den, NegIf(nodes[r.els], r.neg)) == NotIf(fns[r.els], r.neg)
  {
    S.NodesCounted(nodes, r.thn);
    S.NodesCounted(nodes, r.els);
    assert Sem(s.den, nodes[r.thn]) == fns[r.thn];
    assert Sem(s.den, nodes[r.els]) == fns[r.els];
    SemCompl(s.den, nodes[r.els]);
  }

  /** Giving up the three operands. */
  method FreeThree(m: Manager, v: Edge, T: Edge, E: Edge, ghost y: multiset<nat>)
    requires m.Valid() && m.ext == y + multiset{E.node} + multiset{T.node} + multiset{v.node}
    modifies m`refs, m`ext
    ensures m.Valid() && m.ext == y && FrozenKept(old(m.refs), m.refs)
  {
    hide TableOk, CacheOk, Inverse, FrozenKept;
    ghost var refs0 := m.refs;
    FreeHeld(m, v, y + multiset{E.node} + multiset{T.node});
    ghost var refs1 := m.refs;
    FreeHeld(m, T, y + multiset{E.node});
    ghost var refs2 := m.refs;
    FreeHeld(m, E, y);
    FrozenTrans(refs0, refs1, refs2);
    FrozenTrans(refs0, refs2, m.refs);
  }

  /** The nodes restored so far. */
  ghost predicate Restoring(s: Table, t: Table, rs: seq<NodeRec>, i: nat, nodes: seq<Edge>)
    requires Backward(rs) && i <= |rs|
  {
    && Backward(rs[..i]) && S.Denote(t, nodes, Fns(rs[..i]))
    && t.ext == s.ext + Tables.Nodes(nodes) && Retains(s, t, s.ext)
  }

  /** Constants at addresses 0 and 1; the third place belongs to BDD_X, which no dump refers to. */
  method RestoreConstants(m: Manager, ghost rs: seq<NodeRec>) returns (nodes: seq<Edge>)
    requires m.Valid() && Backward(rs)
    modifies m`refs, m`ext
    ensures m.Valid() && Restoring(old(m.Tab()), m.Tab(), rs, 0, nodes)
  {
    hide TableOk, CacheOk, Inverse, Retains, Kept, Tables.Nodes;
    ghost var s := m.Tab();
    AddRef(m, ZERO);
    ghost var s1 := m.Tab();
    AddRef(m, ONE);
    ghost var s2 := m.Tab();
    AddRef(m, ONE);
    nodes := [ZERO, ONE, ONE];
    KeptTrans(s, s1, s2);
    KeptTrans(s, s2, m.Tab());
    KeptRetains(s, m.Tab(), m.ranks, s.ext);
    CoreKeys(s, m.ranks);
    ConstSem(m.den);
    ThreeNodes(s.ext);
    assert rs[..0] == [];
  }

  lemma ThreeNodes(y: multiset<nat>)
    ensures y + Tables.Nodes([ZERO, ONE, ONE]) == y + multiset{0} + multiset{0} + multiset{0}
  {
    S.NodesLast([ZERO, ONE], ONE);
    S.NodesLast([ZERO], ONE);
    S.NodesOne(ZERO);
    assert [ZERO, ONE, ONE] == [ZERO, ONE] + [ONE] && [ZERO, ONE] == [ZERO] + [ONE];
  }

  lemma BackwardPrefix(rs: seq<NodeRec>, i: nat)
    requires Backward(rs) && i <= |rs|
    ensures Backward(rs[..i]) && |Fns(rs[..i])| == i + 3
  {
    forall k | 0 <= k < i
      ensures rs[..i][k].thn < k + 3 && rs[..i][k].els < k + 3 && rs[..i][k].thn != 2 && rs[..i][k].els != 2
    {
      assert rs[..i][k] == rs[k];
    }
  }

  lemma RestoringNext(s: Table, t: Table, u: Table, ranks: seq<nat>, ranks': seq<nat>, rs: seq<NodeRec>, i: nat, nodes: seq<Edge>, R: Edge)
    requires TableOk(t, ranks) && TableOk(u, ranks') && Backward(rs) && i < |rs| && Restoring(s, t, rs, i, nodes)
    requires Retains(t, u, t.ext) && u.ext == t.ext + multiset{R.node} && In(u.g, R)
    requires rs[i].thn < i + 3 && rs[i].els < i + 3 && |Fns(rs[..i])| == i + 3
    requires Sem(u.den, R) == Ite(Lit(rs[i].varid, true), Fns(rs[..i])[rs[i].thn], NotIf(Fns(rs[..i])[rs[i].els], rs[i].neg))
    ensures Restoring(s, u, rs, i + 1, nodes + [R])
  {
    hide TableOk, Retains, Tables.Nodes, Fns, S.Denote;
    BackwardPrefix(rs, i);
    BackwardPrefix(rs, i + 1);
    assert rs[..i + 1] == rs[..i] + [rs[i]];
    FnsMore(rs[..i], rs[i]);
    S.FrontWithin(s.ext, Tables.Nodes(nodes), multiset{}, 0);
    DenoteMoved(t, u, ranks, ranks', nodes, Fns(rs[..i]));
    S.DenoteLast(u, nodes, Fns(rs[..i]), R);
    S.RetainsSub(t, u, s.ext, t.ext);
    RetainsTrans(s, t, u, s.ext);
    S.NodesLast(nodes, R);
    Associate(s.ext, Tables.Nodes(nodes), multiset{R.node});
  }

  /** Held edges denote what they did, even when the order has changed. */
  lemma DenoteMoved(s: Table, t: Table, ranks: seq<nat>, ranks': seq<nat>, es: seq<Edge>, ps: seq<Fn>)
    requires TableOk(s, ranks) && TableOk(t, ranks') && Retains(s, t, s.ext) && Tables.Nodes(es) <= s.ext && S.Denote(s, es, ps)
    ensures S.Denote(t, es, ps)
  {
    hide TableOk, Tables.Nodes;
    forall i | 0 <= i < |es|
      ensures In(t.g, es[i]) && Sem(t.den, es[i]) == ps[i]
    {
      S.NodesCounted(es, i);
      assert In(s.g, es[i]);
      RetainsSem(s, t, ranks, ranks', s.ext, es[i]);
    }
  }

  /** The first nr nodes of a dump, each from earlier ones; what follows in the dump does not matter. */
  method RestoreNodes(m: Manager, b: seq<Byte>, nr: nat, ghost rs: seq<NodeRec>, ghost es: seq<EdgeRec>, ghost vars: nat)
    returns (nodes: seq<Edge>)
    requires m.Valid() && Contiguous(LayoutOf(m)) && b == File(rs, es, vars) && nr <= |rs| && Backward(rs)
    requires forall i {:trigger rs[i]} :: 0 <= i < nr ==> NodeFits(rs[i]) && rs[i].varid < TERMID
    modifies m
    ensures m.Valid() && Contiguous(LayoutOf(m)) && |m.ranks| == Fitted(old(|m.ranks|), rs[..nr]) && m.reorder == old(m.reorder)
    ensures Restoring(old(m.Tab()), m.Tab(), rs, nr, nodes)
  {
    hide TableOk, CacheOk, Inverse, Contiguous, Restoring, Fns, File, NodeAt, Ite, Lit;
    ghost var s := m.Tab();
    nodes := RestoreConstants(m, rs);
    for i := 0 to nr
      invariant m.Valid() && Contiguous(LayoutOf(m)) && |m.ranks| == Fitted(old(|m.ranks|), rs[..i]) && m.reorder == old(m.reorder)
      invariant Restoring(s, m.Tab(), rs, i, nodes)
    {
      FileNode(rs, es, vars, i);
      FittedNext(old(|m.ranks|), rs, i);
      var r := NodeAt(b, 12 + 8 * i);
      nodes := RestoreNext(m, r, nodes, s, rs, i);
    }
  }

  method RestoreNext(m: Manager, r: NodeRec, nodes: seq<Edge>, ghost s: Table, ghost rs: seq<NodeRec>, ghost i: nat)
    returns (nodes': seq<Edge>)
    requires m.Valid() && Contiguous(LayoutOf(m)) && Backward(rs) && i < |rs| && r == rs[i] && r.varid < TERMID
    requires Restoring(s, m.Tab(), rs, i, nodes)
    modifies m
    ensures m.Valid() && Contiguous(LayoutOf(m)) && |m.ranks| == Most(old(|m.ranks|), r.varid) && m.reorder == old(m.reorder)
    ensures Restoring(s, m.Tab(), rs, i + 1, nodes')
  {
    hide TableOk, CacheOk, Inverse, Contiguous, Restoring, Fns, Retains, S.Denote, Tables.Nodes, Ite, Lit;
    ghost var t, ranks := m.Tab(), m.ranks;
    RestoringFacts(s, t, rs, i, nodes);
    var R := RestoreNode(m, r, nodes, Fns(rs[..i]));
    RestoringNext(s, t, m.Tab(), ranks, m.ranks, rs, i, nodes, R);
    nodes' := nodes + [R];
  }

  lemma RestoringFacts(s: Table, t: Table, rs: seq<NodeRec>, i: nat, nodes: seq<Edge>)
    requires Backward(rs) && i <= |rs| && Restoring(s, t, rs, i, nodes)
    ensures Backward(rs[..i]) && S.Denote(t, nodes, Fns(rs[..i])) && Tables.Nodes(nodes) <= t.ext && |nodes| == i + 3
    ensures |Fns(rs[..i])| == i + 3
    ensures i < |rs| ==> rs[i].thn < i + 3 && rs[i].els < i + 3
    ensures t.ext == s.ext + Tables.Nodes(nodes) && Retains(s, t, s.ext)
  {
    BackwardPrefix(rs, i);
  }

  /** What a restored element stands for. */
  ghost predicate Restored(t: Table, fns: seq<Fn>, r: EdgeRec, f: Pointer) {
    if r.VoidRec? then f.Void? else f.To? && In(t.g, f.e) && r.id < |fns| && !r.inv && Sem(t.den, f.e) == EdgeFn(fns, r)
  }

  ghost predicate AllRestored(t: Table, fns: seq<Fn>, es: seq<EdgeRec>, fs: seq<Pointer>) {
    |fs| <= |es| && forall k {:trigger fs[k]} :: 0 <= k < |fs| ==> Restored(t, fns, es[k], fs[k])
  }

  /** bdd_restore_edge on a decoded record */
  method RestoreEdge(m: Manager, r: EdgeRec, nodes: seq<Edge>, ghost fns: seq<Fn>) returns (f: Pointer)
    requires m.Valid() && S.Denote(m.Tab(), nodes, fns) && Tables.Nodes(nodes) <= m.ext && (r.EdgeRec? ==> r.id < |nodes| && !r.inv)
    modifies m`refs, m`ext
    ensures m.Valid() && m.ext == old(m.ext) + One(f) && FrozenKept(old(m.refs), m.refs) && Restored(m.Tab(), fns, r, f)
  {
    hide TableOk, CacheOk, Inverse, Kept, Tables.Nodes, FrozenKept;
    S.FrozenRefl(m.refs);
    if r.VoidRec? {
      f := Void;
    } else {
      var e := NegIf(nodes[r.id], r.neg);
      EdgeFacts(m.Tab(), nodes, fns, r);
      S.HeldIn(m.Tab(), m.ranks, e);
      ghost var s := m.Tab();
      AddRef(m, e);
      S.KeptFrozen(s, m.Tab());
      f := To(e);
    }
  }

  lemma EdgeFacts(s: Table, nodes: seq<Edge>, fns: seq<Fn>, r: EdgeRec)
    requires S.Denote(s, nodes, fns) && Tables.Nodes(nodes) <= s.ext && r.EdgeRec? && r.id < |nodes| && !r.inv
    ensures |fns| == |nodes| && s.ext[nodes[r.id].node] > 0 && Sem(s.den, NegIf(nodes[r.id], r.neg)) == EdgeFn(fns, r)
  {
    S.NodesCounted(nodes, r.id);
    assert Sem(s.den, nodes[r.id]) == fns[r.id];
    SemCompl(s.den, nodes[r.id]);
  }

  lemma RestoredMore(s: Table, t: Table, fns: seq<Fn>, es: seq<EdgeRec>, fs: seq<Pointer>, f: Pointer)
    requires AllRestored(s, fns, es, fs) && |fs| < |es| && t.g == s.g && t.den == s.den && Restored(t, fns, es[|fs|], f)
    ensures AllRestored(t, fns, es, fs + [f])
  {
    forall k | 0 <= k < |fs + [f]|
      ensures Restored(t, fns, es[k], (fs + [f])[k])
    {
      if k < |fs| {
        assert Restored(s, fns, es[k], fs[k]);
      }
    }
  }

  lemma MorePointers(y: multiset<nat>, fs: seq<Pointer>, f: Pointer)
    ensures y + PointerNodes(fs) + One(f) == y + PointerNodes(fs + [f])
  {
    PointerNodesLast(fs + [f]);
    assert (fs + [f])[..|fs|] == fs;
    Associate(y, PointerNodes(fs), One(f));
  }

  /** The elements of the vector. */
  method RestoreEdges(m: Manager, b: seq<Byte>, nr: nat, size: nat, nodes: seq<Edge>, ghost fns: seq<Fn>,
                      ghost rs: seq<NodeRec>, ghost es: seq<EdgeRec>, ghost vars: nat)
    returns (fs: seq<Pointer>)
    requires m.Valid() && S.Denote(m.Tab(), nodes, fns) && Tables.Nodes(nodes) <= m.ext && |nodes| == |rs| + 3
    requires b == File(rs, es, vars) && nr == |rs| && size == |es| && D.AllFit(rs, es)
    requires forall k {:trigger es[k]} :: 0 <= k < |es| && es[k].EdgeRec? ==> es[k].id < |rs| + 3 && !es[k].inv
    modifies m`refs, m`ext
    ensures m.Valid() && m.ext == old(m.ext) + PointerNodes(fs) && FrozenKept(old(m.refs), m.refs)
    ensures |fs| == |es| && AllRestored(m.Tab(), fns, es, fs)
  {
    hide TableOk, CacheOk, Inverse, Tables.Nodes, FrozenKept, Restored, PointerNodes, File, EdgeAt, S.Denote, One;
    fs := [];
    S.FrozenRefl(m.refs);
    NoPointers(m.ext);
    ghost var s := m.Tab();
    for k := 0 to size
      invariant m.Valid() && m.ext == s.ext + PointerNodes(fs) && FrozenKept(s.refs, m.refs)
      invariant |fs| == k && AllRestored(m.Tab(), fns, es, fs)
    {
      FileEdge(rs, es, vars, k);
      var r := EdgeAt(b, 12 + 8 * nr + 3 * k);
      ghost var t := m.Tab();
      S.DenoteSame(s, t, nodes, fns);
      S.BaseWithin(Tables.Nodes(nodes), s.ext, PointerNodes(fs));
      var f := RestoreEdge(m, r, nodes, fns);
      FrozenTrans(s.refs, t.refs, m.refs);
      RestoredMore(t, m.Tab(), fns, es, fs, f);
      MorePointers(s.ext, fs, f);
      fs := fs + [f];
    }
  }

  lemma NoPointers(y: multiset<nat>)
    ensures y + PointerNodes([]) == y
  {
  }

  /** bdd_free on every restored node */
  method FreeNodes(m: Manager, nodes: seq<Edge>, ghost y: multiset<nat>)
    requires m.Valid() && m.ext == y + Tables.Nodes(nodes)
    modifies m`refs, m`ext
    ensures m.Valid() && m.ext == y && FrozenKept(old(m.refs), m.refs)
  {
    hide TableOk, CacheOk, Inverse, Tables.Nodes, FrozenKept;
    S.FrozenRefl(m.refs);
    assert nodes[0..] == nodes;
    for i := 0 to |nodes|
      invariant m.Valid() && m.ext == y + Tables.Nodes(nodes[i..]) && FrozenKept(old(m.refs), m.refs)
    {
      ghost var refs, rest := m.refs, nodes[i..];
      S.NodesFirst(rest);
      assert rest[1..] == nodes[i + 1..] && rest[0] == nodes[i];
      Commute(y, multiset{nodes[i].node}, Tables.Nodes(nodes[i + 1..]));
      Associate(y, multiset{nodes[i].node}, Tables.Nodes(nodes[i + 1..]));
      FreeHeld(m, nodes[i], y + Tables.Nodes(nodes[i + 1..]));
      FrozenTrans(old(m.refs), refs, m.refs);
    }
    S.NoNodes(y, nodes[|nodes|..]);
  }

  lemma RestoredSame(s: Table, t: Table, fns: seq<Fn>, es: seq<EdgeRec>, fs: seq<Pointer>)
    requires AllRestored(s, fns, es, fs) && t.g == s.g && t.den == s.den
    ensures AllRestored(t, fns, es, fs)
  {
    forall k | 0 <= k < |fs|
      ensures Restored(t, fns, es[k], fs[k])
    {
      assert Restored(s, fns, es[k], fs[k]);
    }
  }

  /** bdd_restore_from_chars_vec on what a dump has written; variables the package does not have yet
      come last in the order. */
  method RestoreVec(m: Manager, b: seq<Byte>, ghost rs: seq<NodeRec>, ghost es: seq<EdgeRec>, ghost vars: nat) returns (fs: seq<Pointer>)
    requires m.Valid() && Contiguous(LayoutOf(m)) && b == File(rs, es, vars) && Backward(rs) && D.AllFit(rs, es)
    requires |rs| < 0x1_0000_0000 && |es| < 0x1_0000_0000
    requires forall i {:trigger rs[i]} :: 0 <= i < |rs| ==> rs[i].varid < TERMID
    requires forall k {:trigger es[k]} :: 0 <= k < |es| && es[k].EdgeRec? ==> es[k].id < |rs| + 3 && !es[k].inv
    modifies m
    ensures m.Valid() && Contiguous(LayoutOf(m)) && |m.ranks| == Fitted(old(|m.ranks|), rs) && m.reorder == old(m.reorder)
    ensures m.ext == old(m.ext) + PointerNodes(fs) && Retains(old(m.Tab()), m.Tab(), old(m.ext))
    ensures |fs| == |es| && AllRestored(m.Tab(), Fns(rs), es, fs)
  {
    hide TableOk, CacheOk, Inverse, Tables.Nodes, FrozenKept, Restored, PointerNodes, S.Denote, Contiguous, Restoring, Retains, File, IntAt, Fns;
    ghost var s := m.Tab();
    FileHeader(rs, es, vars);
    var nr, size := IntAt(b, 0), IntAt(b, 4);
    var nodes := RestoreNodes(m, b, nr, rs, es, vars);
    ghost var t := m.Tab();
    assert rs[..|rs|] == rs;
    RestoringFacts(s, t, rs, |rs|, nodes);
    fs := RestoreEdges(m, b, nr, size, nodes, Fns(rs), rs, es, vars);
    ghost var u := m.Tab();
    Commute(s.ext, Tables.Nodes(nodes), PointerNodes(fs));
    FreeNodes(m, nodes, s.ext + PointerNodes(fs));
    FrozenTrans(t.refs, u.refs, m.refs);
    RestoredSame(u, m.Tab(), Fns(rs), es, fs);
    RetainsFree(s, t, m.Tab(), s.ext);
  }

  /** Every element is void again or has its function again. */
  ghost predicate SameVector(den: Den, fs: seq<Pointer>, t: Table, gs: seq<Pointer>) {
    |gs| == |fs| && forall k {:trigger fs[k]} {:trigger gs[k]} :: 0 <= k < |fs| ==>
      if fs[k].Void? then gs[k].Void? else gs[k].To? && In(t.g, gs[k].e) && Sem(t.den, gs[k].e) == Sem(den, fs[k].e)
  }

  lemma RoundFunctions(den: Den, t: Table, fs: seq<Pointer>, gs: seq<Pointer>, rs: seq<NodeRec>, es: seq<EdgeRec>)
    requires Backward(rs) && |es| == |fs| == |gs| && D.EdgesOk(den, rs, fs, es) && AllRestored(t, Fns(rs), es, gs)
    ensures SameVector(den, fs, t, gs)
  {
    forall k {:trigger fs[k]} {:trigger gs[k]} | 0 <= k < |fs|
      ensures if fs[k].Void? then gs[k].Void? else gs[k].To? && In(t.g, gs[k].e) && Sem(t.den, gs[k].e) == Sem(den, fs[k].e)
    {
      assert D.EdgeOk(den, rs, fs[k], es[k]) && Restored(t, Fns(rs), es[k], gs[k]);
    }
  }

  lemma DumpIds(den: Den, fs: seq<Pointer>, b: seq<Byte>, rs: seq<NodeRec>, es: seq<EdgeRec>, vars: nat)
    requires D.DumpOf(den, fs, b, rs, es, vars)
    ensures Backward(rs) && |es| == |fs| && b == File(rs, es, vars) && D.EdgesOk(den, rs, fs, es)
    ensures |rs| <= D.MAX_NODES && vars <= TERMID ==> D.AllFit(rs, es)
    ensures |rs| < 0x1_0000_0000 && |es| < 0x1_0000_0000
    ensures forall i {:trigger rs[i]} :: 0 <= i < |rs| ==> rs[i].varid < vars
    ensures forall k {:trigger es[k]} :: 0 <= k < |es| && es[k].EdgeRec? ==> es[k].id < |rs| + 3 && !es[k].inv
  {
    if |rs| <= D.MAX_NODES && vars <= TERMID {
      D.SmallFits(den, fs, b, rs, es, vars);
    }
    forall k {:trigger es[k]} | 0 <= k < |es| && es[k].EdgeRec?
      ensures es[k].id < |rs| + 3 && !es[k].inv
    {
      assert D.EdgeOk(den, rs, fs[k], es[k]);
    }
  }

  /** A vector dumped from one package and restored into another, with any variables, order and
      contents. */
  method RoundTrip(m: Manager, m': Manager, fs: seq<Pointer>) returns (gs: seq<Pointer>)
    requires m.Valid() && F.VecAlive(m.Tab(), fs) && Shape(m.nodes, m.ranks) && F.VecIn(m.nodes, fs)
    requires |F.ReachAll(m.nodes, m.ranks, fs, |fs|) - {0}| <= D.MAX_NODES
    requires D.ByteCount(|F.ReachAll(m.nodes, m.ranks, fs, |fs|) - {0}|, |fs|) < 0x8000_0000
    requires m'.Valid() && Contiguous(LayoutOf(m'))
    modifies m'
    ensures m'.Valid() && Contiguous(LayoutOf(m')) && SameVector(old(m.den), fs, m'.Tab(), gs)
    ensures m'.ext == old(m'.ext) + PointerNodes(gs) && Retains(old(m'.Tab()), m'.Tab(), old(m'.ext))
  {
    hide TableOk, CacheOk, Inverse, F.ReachAll, Shape, Contiguous, Retains, PointerNodes, D.DumpOf, AllRestored, D.EdgesOk, SameVector, File, Fns;
    ghost var den := m.den;
    var b;
    ghost var rs, es, log, aux;
    b, rs, es, log, aux := D.DumpVec(m, fs);
    DumpIds(den, fs, b, rs, es, |m.ranks|);
    OrderBound(m.nodes, m.ranks);
    gs := RestoreVec(m', b, rs, es, |m.ranks|);
    RoundFunctions(den, m'.Tab(), fs, gs, rs, es);
  }

  lemma OrderBound(g: Nodes, ranks: seq<nat>)
    requires Shape(g, ranks)
    ensures |ranks| <= TERMID
  {
  }

  /** In one package restoring yields the very same edges: same function, same edge. */
  lemma SameEdges(s: Table, t: Table, ranks: seq<nat>, ranks': seq<nat>, fs: seq<Pointer>, gs: seq<Pointer>)
    requires TableOk(s, ranks) && TableOk(t, ranks') && SameVector(s.den, fs, t, gs) && Retains(s, t, s.ext)
    requires forall k {:trigger fs[k]} :: 0 <= k < |fs| && fs[k].To? ==> In(s.g, fs[k].e) && s.ext[fs[k].e.node] > 0
    ensures gs == fs
  {
    forall k | 0 <= k < |fs|
      ensures gs[k] == fs[k]
    {
      if fs[k].To? {
        RetainsSem(s, t, ranks, ranks', s.ext, fs[k].e);
        Canonical(t.g, ranks', t.den, gs[k].e, fs[k].e);
      }
    }
  }
}
