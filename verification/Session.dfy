/** Whole runs: every sequence of operations computes what the same operations compute on Boolean
    functions, and equal functions always have equal pointers. */
module Session {
  import opened Sets
  import opened Functions
  import opened Graph
  import opened RefCount
  import opened State
  import opened Tables
  import opened ConstrainOps
  import opened Exists
  import opened Size
  import opened Sift
  import opened Groups
  import opened Reorder
  import opened Operators
  import opened Commands
  import Q = Quantify
  import Slots
  import IteOps
  import P = AndSmooth
  import Support
  import N = NewVar
  import C = Compose
  import R = RestrictOps
  import Y = Simplify
  import S = Substitute

  ghost predicate HandleOk(t: Table, h: Pointer, v: Value) {
    if v.Gone? then h.Void? else h.To? && In(t.g, h.e) && Sem(t.den, h.e) == v.f
  }

  ghost predicate Handles(t: Table, hs: seq<Pointer>, vs: seq<Value>) {
    && |hs| == |vs| && t.ext == PointerNodes(hs)
    && (forall i {:trigger hs[i]} :: 0 <= i < |hs| ==> HandleOk(t, hs[i], vs[i]))
  }

  /** The package is in order, and the client's handles stand for the values. */
  ghost predicate Stands(m: Manager, sc: Slots.Scratch, pc: P.ProductCache, hs: seq<Pointer>, vs: seq<Value>)
    reads m, sc, pc
  {
    && m.Valid() && Contiguous(LayoutOf(m))
    && sc.Val() == Slots.Aux({}, map[], map[]) && pc.entries != [] && P.AllVacant(pc.entries, |pc.entries|)
    && Handles(m.Tab(), hs, vs)
  }

  /** The package's state and the client's handles agree with the model. */
  ghost predicate Agrees(m: Manager, sc: Slots.Scratch, pc: P.ProductCache, hs: seq<Pointer>, s: Model)
    reads m, sc, pc
  {
    && Stands(m, sc, pc, hs, s.values) && |m.ranks| == |m.space| == |s.layout.space|
    && LayoutOf(m) == s.layout && m.reorder == s.dynamic
  }

  /** Order, groups and the switch are as in the model. */
  ghost predicate SameLayout(m: Manager, s: Model)
    reads m
  {
    LayoutOf(m) == s.layout && m.reorder == s.dynamic
  }

  /** Every node the client holds is still there with its function. */
  ghost predicate Untouched(s: Table, t: Table) {
    forall n {:trigger s.ext[n]} :: s.ext[n] > 0 && n in s.g ==>
      n in t.g && n in s.den && n in t.den && t.den[n] == s.den[n]
  }

  lemma RetainsUntouched(s: Table, t: Table)
    requires Retains(s, t, s.ext)
    ensures Untouched(s, t)
  {
  }

  lemma HandleRetained(s: Table, t: Table, ranks: seq<nat>, ranks': seq<nat>, hs: seq<Pointer>, vs: seq<Value>, i: nat)
    requires TableOk(s, ranks) && TableOk(t, ranks') && i < |hs| == |vs| && HandleOk(s, hs[i], vs[i])
    requires Untouched(s, t) && (hs[i].To? ==> s.ext[hs[i].e.node] > 0)
    ensures HandleOk(t, hs[i], vs[i])
  {
    CoreKeys(s, ranks);
    CoreKeys(t, ranks');
  }

  /** An operation that retains what is held and yields one more handle. */
  lemma Appended(s: Table, t: Table, ranks: seq<nat>, ranks': seq<nat>, hs: seq<Pointer>, vs: seq<Value>, h: Pointer, v: Value)
    requires TableOk(s, ranks) && TableOk(t, ranks') && Handles(s, hs, vs)
    requires Untouched(s, t) && t.ext == s.ext + One(h) && HandleOk(t, h, v)
    ensures Handles(t, hs + [h], vs + [v])
  {
    hide TableOk, Untouched, HandleOk, PointerNodes;
    var hs', vs' := hs + [h], vs + [v];
    PointerNodesLast(hs');
    assert hs'[..|hs|] == hs;
    forall i | 0 <= i < |hs'|
      ensures HandleOk(t, hs'[i], vs'[i])
    {
      if i < |hs| {
        if hs[i].To? { PointerCounted(hs, i); }
        assert HandleOk(s, hs[i], vs[i]);
        HandleRetained(s, t, ranks, ranks', hs, vs, i);
      }
    }
  }

  /** An operation that retains what is held. */
  lemma Same(s: Table, t: Table, ranks: seq<nat>, ranks': seq<nat>, hs: seq<Pointer>, vs: seq<Value>)
    requires TableOk(s, ranks) && TableOk(t, ranks') && Handles(s, hs, vs)
    requires Untouched(s, t) && t.ext == s.ext
    ensures Handles(t, hs, vs)
  {
    hide TableOk, Untouched, HandleOk, PointerNodes;
    forall i | 0 <= i < |hs|
      ensures HandleOk(t, hs[i], vs[i])
    {
      if hs[i].To? { PointerCounted(hs, i); }
      assert HandleOk(s, hs[i], vs[i]);
      HandleRetained(s, t, ranks, ranks', hs, vs, i);
    }
  }

  lemma HandleFacts(t: Table, ranks: seq<nat>, hs: seq<Pointer>, vs: seq<Value>, i: nat)
    requires TableOk(t, ranks) && Handles(t, hs, vs) && i < |hs|
    ensures HandleOk(t, hs[i], vs[i])
    ensures hs[i].To? ==> t.ext[hs[i].e.node] > 0 && Alive(t.g, t.refs, hs[i].e) && In(t.g, hs[i].e)
  {
    if hs[i].To? {
      PointerCounted(hs, i);
      HeldAlive(t, ranks, hs[i].e.node);
    }
  }

  lemma KeepsUntouched(s: Table, t: Table, ranks: seq<nat>)
    requires TableOk(s, ranks) && Support.Keeps(s, t, ranks, s.ext)
    ensures Untouched(s, t)
  {
    forall n | s.ext[n] > 0 && n in s.g
      ensures n in t.g && n in s.den && n in t.den && t.den[n] == s.den[n]
    {
      Support.SupportedHeld(s.g, ranks, s.ext, Edge(n, false));
    }
  }

  lemma KeptUntouched(s: Table, t: Table, ranks: seq<nat>)
    requires TableOk(s, ranks) && Kept(s, t)
    ensures Untouched(s, t)
  {
    KeptRetains(s, t, ranks, s.ext);
  }

  /** The variable of a node is the first its function depends on. */
  lemma TopIsTop(t: Table, ranks: seq<nat>, space: seq<nat>, e: Edge)
    requires TableOk(t, ranks) && Inverse(ranks, space) && In(t.g, e)
    ensures if e.node in t.g then t.g[e.node].varid < |ranks| && TopOf(space, Sem(t.den, e), ranks[t.g[e.node].varid])
            else IsConstant(Sem(t.den, e))
  {
    CoreKeys(t, ranks);
    if e.node in t.g {
      assert NodeOk(t.g, ranks, e.node);
      TopVariableMatters(t.g, ranks, t.den, e);
      var r := ranks[t.g[e.node].varid];
      forall q | 0 <= q < r
        ensures Indep(Sem(t.den, e), space[q])
      {
        assert ranks[space[q]] == q;
        SemIndep(t.g, ranks, t.den, e, space[q]);
      }
    } else {
      IteOps.ConstSem(t.den);
    }
  }

  /** A function that depends on a variable is no constant. */
  lemma TopVaries(space: seq<nat>, f: Fn, r: nat)
    requires TopOf(space, f, r)
    ensures !IsConstant(f)
  {
    assert Indep(True(), space[r]) && Indep(iset{}, space[r]);
  }

  /** Where the package puts the new variable, in terms of functions. */
  lemma PlacedNew(t: Table, ranks: seq<nat>, l: Layout, hs: seq<Pointer>, vs: seq<Value>, w: Where, k: nat)
    requires TableOk(t, ranks) && Inverse(ranks, l.space) && Handles(t, hs, vs)
    requires w.Behind? || w.Ahead? ==> w.i < |hs|
    requires match w
      case Last => N.Place(l, ranks, t.g, Void, k)
      case First => N.Place(l, ranks, t.g, To(ONE), k)
      case Behind(i) => N.Place(l, ranks, t.g, hs[i], k)
      case Ahead(i) =>
        if hs[i].To? && hs[i].e.node in t.g then
          t.g[hs[i].e.node].varid < |ranks| && N.Preceding(l, ranks, t.g[hs[i].e.node].varid, k)
        else N.Place(l, ranks, t.g, hs[i], k)
    ensures |hs| == |vs| && Placed(l, vs, w, k)
  {
    hide TableOk, Inverse, TopOf, IsConstant, Contiguous;
    CoreKeys(t, ranks);
    if w.Behind? || w.Ahead? {
      var h, v := hs[w.i], vs[w.i];
      HandleFacts(t, ranks, hs, vs, w.i);
      if h.To? {
        TopIsTop(t, ranks, l.space, h.e);
        if h.e.node in t.g {
          var x := t.g[h.e.node].varid;
          TopVaries(l.space, v.f, ranks[x]);
          SpaceOfRank(ranks, l.space, x);
        }
      }
    }
  }

  method DoNewVar(m: Manager, sc: Slots.Scratch, pc: P.ProductCache, hs: seq<Pointer>, w: Where, ghost s: Model)
    returns (hs': seq<Pointer>)
    requires Agrees(m, sc, pc, hs, s) && Legal(|s.layout.space|, |s.values|, NewVar(w))
    modifies m
    ensures Stands(m, sc, pc, hs', Results(s.layout.space, s.values, NewVar(w)))
    ensures Arranged(s, NewVar(w), LayoutOf(m)) && m.reorder == s.dynamic
  {
    hide TableOk, CacheOk, Inverse, Contiguous, Kept, Handles, HandleOk;
    ghost var t, ranks, l := m.Tab(), m.ranks, LayoutOf(m);
    HandleCount(t, hs, s.values);
    var r;
    ghost var k;
    match w {
      case Last => r, k := N.CreateVarAfter(m, Void);
      case First => r, k := N.CreateVarAfter(m, To(ONE));
      case Behind(i) =>
        HandleFacts(t, m.ranks, hs, s.values, i);
        r, k := N.CreateVarAfter(m, hs[i]);
      case Ahead(i) =>
        HandleFacts(t, m.ranks, hs, s.values, i);
        r, k := N.CreateVarBefore(m, hs[i]);
    }
    PlacedNew(t, ranks, l, hs, s.values, w, k);
    KeptUntouched(t, m.Tab(), ranks);
    hs' := hs + [To(r)];
    NewHandle(m.Tab(), r, Literal(|s.layout.space|));
    Appended(t, m.Tab(), ranks, m.ranks, hs, s.values, To(r), Value(Literal(|s.layout.space|)));
  }

  lemma HandleCount(t: Table, hs: seq<Pointer>, vs: seq<Value>)
    requires Handles(t, hs, vs)
    ensures |hs| == |vs| && t.ext == PointerNodes(hs)
  {
  }

  lemma NewHandle(t: Table, r: Edge, f: Fn)
    requires In(t.g, r) && Sem(t.den, r) == f
    ensures HandleOk(t, To(r), Value(f)) && One(To(r)) == multiset{r.node}
  {
  }

  lemma NoHandle(t: Table, x: multiset<nat>)
    ensures HandleOk(t, Void, Gone) && One(Void) == multiset{} && x + One(Void) == x
  {
  }

  /** The outcome of an operation as a handle. */
  lemma Outcome(s: Table, t: Table, ranks: seq<nat>, ranks': seq<nat>, hs: seq<Pointer>, vs: seq<Value>, R: Pointer, v: Value)
    requires TableOk(s, ranks) && TableOk(t, ranks') && Handles(s, hs, vs) && (R.Void? <==> v.Gone?)
    requires R.Void? ==> t == s
    requires R.To? ==> Untouched(s, t) && t.ext == s.ext + multiset{R.e.node} && In(t.g, R.e) && Sem(t.den, R.e) == v.f
    ensures Handles(t, hs + [R], vs + [v])
  {
    hide TableOk, Handles;
    CoreKeys(s, ranks);
    if R.Void? {
      NoHandle(t, s.ext);
    } else {
      NewHandle(t, R.e, v.f);
    }
    Appended(s, t, ranks, ranks', hs, vs, R, v);
  }

  method DoIte(m: Manager, sc: Slots.Scratch, pc: P.ProductCache, hs: seq<Pointer>, i: nat, j: nat, k: nat, ghost s: Model)
    returns (hs': seq<Pointer>)
    requires Agrees(m, sc, pc, hs, s) && i < |hs| && j < |hs| && k < |hs| && |hs| == |s.values|
    modifies m
    ensures Stands(m, sc, pc, hs', Results(s.layout.space, s.values, Ite(i, j, k)))
    ensures Arranged(s, Ite(i, j, k), LayoutOf(m)) && m.reorder == s.dynamic
  {
    hide TableOk, CacheOk, Inverse, Contiguous, Kept, Handles, Retains, Untouched;
    ghost var t, ranks := m.Tab(), m.ranks;
    HandleFacts(t, ranks, hs, s.values, i);
    HandleFacts(t, ranks, hs, s.values, j);
    HandleFacts(t, ranks, hs, s.values, k);
    var R := BddIte(m, hs[i], hs[j], hs[k]);
    if R.To? {
      RetainsUntouched(t, m.Tab());
    }
    ghost var vs := Results(s.layout.space, s.values, Ite(i, j, k));
    Outcome(t, m.Tab(), ranks, m.ranks, hs, s.values, R, vs[|s.values|]);
    hs' := hs + [R];
    assert vs == s.values + [vs[|s.values|]];
  }

  /** The variables of x by rank, as the interface hands them over. */
  method ByRank(m: Manager, x: set<nat>) returns (vars: seq<int>)
    requires m.Valid() && Known(x, |m.ranks|)
    ensures Q.Listed(vars, m.ranks) && Q.VarSet(vars) == x
  {
    hide TableOk, CacheOk;
    vars := [];
    for r := 0 to |m.space|
      invariant Gathered(m.ranks, m.space, x, r, vars)
    {
      if m.space[r] in x {
        GatheredNext(m.ranks, m.space, x, r, vars);
        vars := vars + [m.space[r]];
      }
    }
    GatheredAll(m.ranks, m.space, x, vars);
  }

  /** vars lists what x has of the first r ranks. */
  ghost predicate Gathered(ranks: seq<nat>, space: seq<nat>, x: set<nat>, r: nat, vars: seq<int>) {
    && r <= |space| && Q.Listed(vars, ranks)
    && (forall k {:trigger vars[k]} :: 0 <= k < |vars| ==> 0 <= vars[k] < |ranks| && vars[k] in x && ranks[vars[k]] < r)
    && (forall q {:trigger space[q]} :: 0 <= q < r && space[q] in x ==> space[q] in vars)
  }

  lemma GatheredNext(ranks: seq<nat>, space: seq<nat>, x: set<nat>, r: nat, vars: seq<int>)
    requires Inverse(ranks, space) && r < |space| && Gathered(ranks, space, x, r, vars) && space[r] in x
    ensures Gathered(ranks, space, x, r + 1, vars + [space[r]])
  {
    assert ranks[space[r]] == r;
  }

  lemma GatheredAll(ranks: seq<nat>, space: seq<nat>, x: set<nat>, vars: seq<int>)
    requires Inverse(ranks, space) && Gathered(ranks, space, x, |space|, vars) && Known(x, |ranks|)
    ensures Q.VarSet(vars) == x
  {
    forall v | v in x
      ensures v in Q.VarSet(vars)
    {
      assert space[ranks[v]] == v;
      var k :| 0 <= k < |vars| && vars[k] == v;
      assert Q.Id(vars[k]) == v;
    }
    forall v | v in Q.VarSet(vars)
      ensures v in x
    {
      var k :| 0 <= k < |vars| && Q.Id(vars[k]) == v;
    }
  }

  method DoQuantify(m: Manager, sc: Slots.Scratch, pc: P.ProductCache, hs: seq<Pointer>, e: bool, i: nat, x: set<nat>, ghost s: Model)
    returns (hs': seq<Pointer>)
    requires Agrees(m, sc, pc, hs, s) && i < |hs| && Known(x, |s.layout.space|) && |hs| == |s.values|
    modifies m, sc
    ensures Stands(m, sc, pc, hs', Results(s.layout.space, s.values, Quantify(e, i, x))) && SameLayout(m, s)
  {
    hide TableOk, CacheOk, Inverse, Contiguous, Kept, Handles, Untouched, Q.Quantified;
    ghost var t, ranks := m.Tab(), m.ranks;
    HandleFacts(t, ranks, hs, s.values, i);
    var vars := ByRank(m, x);
    var R := Q.BddQuantify(m, sc, e, hs[i], vars);
    ghost var vs := Results(s.layout.space, s.values, Quantify(e, i, x));
    if R.To? {
      KeptUntouched(t, m.Tab(), ranks);
    }
    Outcome(t, m.Tab(), ranks, m.ranks, hs, s.values, R, vs[|s.values|]);
    hs' := hs + [R];
    assert vs == s.values + [vs[|s.values|]];
  }

  method DoAndSmooth(m: Manager, sc: Slots.Scratch, pc: P.ProductCache, hs: seq<Pointer>, i: nat, j: nat, x: set<nat>, ghost s: Model)
    returns (hs': seq<Pointer>)
    requires Agrees(m, sc, pc, hs, s) && i < |hs| && j < |hs| && Known(x, |s.layout.space|) && |hs| == |s.values|
    modifies m, sc, pc
    ensures Stands(m, sc, pc, hs', Results(s.layout.space, s.values, AndSmooth(i, j, x))) && SameLayout(m, s)
  {
    hide TableOk, CacheOk, Inverse, Contiguous, Kept, Handles, Untouched, Smooth, P.AllVacant, Support.Keeps;
    ghost var t, ranks := m.Tab(), m.ranks;
    HandleFacts(t, ranks, hs, s.values, i);
    HandleFacts(t, ranks, hs, s.values, j);
    var vars := ByRank(m, x);
    var R := P.BddAndSmooth(m, sc, pc, hs[i], hs[j], vars);
    ghost var vs := Results(s.layout.space, s.values, AndSmooth(i, j, x));
    if R.To? {
      KeepsUntouched(t, m.Tab(), ranks);
    }
    Outcome(t, m.Tab(), ranks, m.ranks, hs, s.values, R, vs[|s.values|]);
    hs' := hs + [R];
    assert vs == s.values + [vs[|s.values|]];
  }

  /** The false function is the edge 0. */
  lemma FalseHandle(t: Table, ranks: seq<nat>, h: Pointer, v: Value)
    requires TableOk(t, ranks) && HandleOk(t, h, v) && h.To?
    ensures v.Value? && (h.e == ZERO <==> v.f == iset{})
  {
    CoreKeys(t, ranks);
    Canonical(t.g, ranks, t.den, h.e, ZERO);
    assert Not(True()) == iset{};
  }

  method DoConstrain(m: Manager, sc: Slots.Scratch, pc: P.ProductCache, hs: seq<Pointer>, i: nat, j: nat, ghost s: Model)
    returns (hs': seq<Pointer>)
    requires Agrees(m, sc, pc, hs, s) && i < |hs| && j < |hs| && |hs| == |s.values|
    modifies m
    ensures Stands(m, sc, pc, hs', Results(s.layout.space, s.values, Constrain(i, j))) && SameLayout(m, s)
  {
    hide TableOk, CacheOk, Inverse, Contiguous, Kept, Handles, Untouched;
    ghost var t, ranks := m.Tab(), m.ranks;
    HandleFacts(t, ranks, hs, s.values, i);
    HandleFacts(t, ranks, hs, s.values, j);
    if hs[j].To? {
      FalseHandle(t, ranks, hs[j], s.values[j]);
    }
    var R := BddConstrain(m, hs[i], hs[j]);
    ghost var vs := Results(s.layout.space, s.values, Constrain(i, j));
    if R.To? {
      KeptUntouched(t, m.Tab(), ranks);
    }
    Outcome(t, m.Tab(), ranks, m.ranks, hs, s.values, R, vs[|s.values|]);
    hs' := hs + [R];
    assert vs == s.values + [vs[|s.values|]];
  }

  method DoRestrict(m: Manager, sc: Slots.Scratch, pc: P.ProductCache, hs: seq<Pointer>, i: nat, j: nat, ghost s: Model)
    returns (hs': seq<Pointer>)
    requires Agrees(m, sc, pc, hs, s) && i < |hs| && j < |hs| && |hs| == |s.values|
    modifies m
    ensures Stands(m, sc, pc, hs', Results(s.layout.space, s.values, Restrict(i, j))) && SameLayout(m, s)
  {
    hide TableOk, CacheOk, Inverse, Contiguous, Kept, Handles, Untouched, Y.Restrict;
    ghost var t, ranks := m.Tab(), m.ranks;
    HandleFacts(t, ranks, hs, s.values, i);
    HandleFacts(t, ranks, hs, s.values, j);
    if hs[j].To? {
      FalseHandle(t, ranks, hs[j], s.values[j]);
    }
    var R := R.BddRestrict(m, hs[i], hs[j]);
    ghost var vs := Results(s.layout.space, s.values, Restrict(i, j));
    if R.To? {
      KeptUntouched(t, m.Tab(), ranks);
    }
    Outcome(t, m.Tab(), ranks, m.ranks, hs, s.values, R, vs[|s.values|]);
    hs' := hs + [R];
    assert vs == s.values + [vs[|s.values|]];
  }

  /** The handles named by js. */
  function Chosen(hs: seq<Pointer>, js: seq<nat>): (fs: seq<Pointer>)
    requires forall k {:trigger js[k]} :: 0 <= k < |js| ==> js[k] < |hs|
    ensures |fs| == |js| && forall k {:trigger fs[k]} :: 0 <= k < |js| ==> fs[k] == hs[js[k]]
  {
    seq(|js|, k requires 0 <= k < |js| => hs[js[k]])
  }

  lemma VectorReady(t: Table, ranks: seq<nat>, hs: seq<Pointer>, s: Model, i: nat, xs: seq<nat>, js: seq<nat>)
    requires TableOk(t, ranks) && Handles(t, hs, s.values) && |s.layout.space| == |ranks|
    requires Legal(|s.layout.space|, |s.values|, Substitute(i, xs, js))
    ensures forall k {:trigger js[k]} :: 0 <= k < |js| ==> js[k] < |hs|
    ensures S.VectorOk(t, |ranks|, xs, Chosen(hs, js))
    ensures S.Asked(t.den, xs, Chosen(hs, js)) == Replacement(s.values, xs, js)
  {
    hide TableOk, HandleOk;
    forall k {:trigger js[k]} | 0 <= k < |js|
      ensures js[k] < |hs| && HandleOk(t, hs[js[k]], s.values[js[k]])
      ensures hs[js[k]].To? ==> Alive(t.g, t.refs, hs[js[k]].e)
    {
      HandleFacts(t, ranks, hs, s.values, js[k]);
    }
    VectorMeans(t, hs, s, i, xs, js);
  }

  lemma ReplacementAt(vs: seq<Value>, xs: seq<nat>, js: seq<nat>, k: nat)
    requires Distinct(xs) && |xs| == |js| && k < |xs|
    requires forall k {:trigger js[k]} :: 0 <= k < |js| ==> js[k] < |vs|
    ensures xs[k] in Replacement(vs, xs, js) <==> vs[js[k]].Value?
    ensures vs[js[k]].Value? ==> Replacement(vs, xs, js)[xs[k]] == vs[js[k]].f
  {
  }

  lemma AskedAt(t: Table, hs: seq<Pointer>, xs: seq<nat>, js: seq<nat>, k: nat)
    requires Distinct(xs) && |xs| == |js| && k < |xs|
    requires forall k {:trigger js[k]} :: 0 <= k < |js| ==> js[k] < |hs|
    ensures xs[k] in S.Asked(t.den, xs, Chosen(hs, js)) <==> hs[js[k]].To?
    ensures hs[js[k]].To? ==> S.Asked(t.den, xs, Chosen(hs, js))[xs[k]] == Sem(t.den, hs[js[k]].e)
  {
    assert Chosen(hs, js)[k] == hs[js[k]];
  }

  /** Only listed variables are replaced. */
  lemma Listed(t: Table, hs: seq<Pointer>, vs: seq<Value>, xs: seq<nat>, js: seq<nat>, y: nat)
    requires Distinct(xs) && |xs| == |js| && |hs| == |vs|
    requires forall k {:trigger js[k]} :: 0 <= k < |js| ==> js[k] < |hs|
    requires y in S.Asked(t.den, xs, Chosen(hs, js)) || y in Replacement(vs, xs, js)
    ensures y in xs
  {
  }

  lemma VectorMeans(t: Table, hs: seq<Pointer>, s: Model, i: nat, xs: seq<nat>, js: seq<nat>)
    requires Legal(|s.layout.space|, |s.values|, Substitute(i, xs, js)) && |hs| == |s.values|
    requires forall k {:trigger js[k]} :: 0 <= k < |js| ==> js[k] < |hs| && HandleOk(t, hs[js[k]], s.values[js[k]])
    ensures S.Asked(t.den, xs, Chosen(hs, js)) == Replacement(s.values, xs, js)
  {
    hide S.Asked, Replacement, Chosen;
    var asked, wanted := S.Asked(t.den, xs, Chosen(hs, js)), Replacement(s.values, xs, js);
    forall y: nat
      ensures (y in asked <==> y in wanted) && (y in asked ==> asked[y] == wanted[y])
    {
      if y in asked || y in wanted {
        Listed(t, hs, s.values, xs, js, y);
        var k: nat :| k < |xs| && xs[k] == y;
        AskedAt(t, hs, xs, js, k);
        ReplacementAt(s.values, xs, js, k);
        assert HandleOk(t, hs[js[k]], s.values[js[k]]);
      }
    }
  }

  method DoSubstitute(m: Manager, sc: Slots.Scratch, pc: P.ProductCache, hs: seq<Pointer>, i: nat, xs: seq<nat>, js: seq<nat>,
                      ghost s: Model)
    returns (hs': seq<Pointer>)
    requires Agrees(m, sc, pc, hs, s) && Legal(|s.layout.space|, |s.values|, Substitute(i, xs, js)) && |hs| == |s.values|
    modifies m, sc
    ensures Stands(m, sc, pc, hs', Results(s.layout.space, s.values, Substitute(i, xs, js))) && SameLayout(m, s)
  {
    hide TableOk, CacheOk, Inverse, Contiguous, Kept, Handles, Untouched, C.Subst, S.Asked, Replacement, S.VectorOk;
    ghost var t, ranks := m.Tab(), m.ranks;
    HandleFacts(t, ranks, hs, s.values, i);
    VectorReady(t, ranks, hs, s, i, xs, js);
    var R := S.BddSubstPar(m, sc, Chosen(hs, js), xs, hs[i]);
    ghost var vs := Results(s.layout.space, s.values, Substitute(i, xs, js));
    if R.To? {
      KeptUntouched(t, m.Tab(), ranks);
    }
    Outcome(t, m.Tab(), ranks, m.ranks, hs, s.values, R, vs[|s.values|]);
    hs' := hs + [R];
    assert vs == s.values + [vs[|s.values|]];
  }

  /** Giving up a handle leaves the others as they are. */
  lemma Dropped(s: Table, t: Table, ranks: seq<nat>, hs: seq<Pointer>, vs: seq<Value>, i: nat)
    requires Handles(s, hs, vs) && i < |hs| && hs[i].To?
    requires t.g == s.g && t.den == s.den && t.ext == s.ext - multiset{hs[i].e.node}
    ensures Handles(t, hs[i := Void], vs[i := Gone])
  {
    hide PointerNodes;
    var hs', vs' := hs[i := Void], vs[i := Gone];
    PointerNodesAt(hs, i, Void);
    NoHandle(t, PointerNodes(hs));
    NewHandle(s, hs[i].e, vs[i].f);
    TakeBack(PointerNodes(hs'), PointerNodes(hs), hs[i].e.node);
    forall k | 0 <= k < |hs'|
      ensures HandleOk(t, hs'[k], vs'[k])
    {
      assert HandleOk(s, hs[k], vs[k]);
    }
  }

  lemma TakeBack(x: multiset<nat>, y: multiset<nat>, n: nat)
    requires x + multiset{n} == y
    ensures y - multiset{n} == x
  {
    assert y - multiset{n} == x + multiset{n} - multiset{n};
  }

  method DoDrop(m: Manager, sc: Slots.Scratch, pc: P.ProductCache, hs: seq<Pointer>, i: nat, ghost s: Model)
    returns (hs': seq<Pointer>)
    requires Agrees(m, sc, pc, hs, s) && i < |hs| && |hs| == |s.values|
    modifies m
    ensures Stands(m, sc, pc, hs', Results(s.layout.space, s.values, Drop(i))) && SameLayout(m, s)
  {
    hide TableOk, CacheOk, Inverse, Contiguous, Handles;
    ghost var t := m.Tab();
    HandleFacts(t, m.ranks, hs, s.values, i);
    hs' := hs[i := Void];
    if hs[i].To? {
      Free(m, hs[i].e);
      Dropped(t, m.Tab(), m.ranks, hs, s.values, i);
    } else {
      assert hs' == hs && s.values[i := Gone] == s.values;
    }
  }

  method DoGc(m: Manager, sc: Slots.Scratch, pc: P.ProductCache, hs: seq<Pointer>, ghost s: Model)
    requires Agrees(m, sc, pc, hs, s)
    modifies m
    ensures Stands(m, sc, pc, hs, s.values) && SameLayout(m, s) && m.nodes.Keys == old(Live(m.nodes, m.refs))
  {
    hide TableOk, CacheOk, Inverse, Contiguous, Handles, Kept, Untouched, Swept;
    ghost var t := m.Tab();
    Tables.Gc(m);
    SweptLive(t);
    KeptUntouched(t, m.Tab(), m.ranks);
    Same(t, m.Tab(), m.ranks, m.ranks, hs, s.values);
  }

  method DoReorder(m: Manager, sc: Slots.Scratch, pc: P.ProductCache, hs: seq<Pointer>, ghost s: Model)
    requires Agrees(m, sc, pc, hs, s)
    modifies m
    ensures Stands(m, sc, pc, hs, s.values) && Arranged(s, Commands.Reorder, LayoutOf(m)) && m.reorder == s.dynamic
  {
    hide TableOk, CacheOk, Inverse, Contiguous, Handles, Untouched, Retains, Improved;
    ghost var t, ranks := m.Tab(), m.ranks;
    ghost var run;
    var gain;
    gain, run := DynamicOrder(m);
    ImprovedRetains(t, m.Tab(), t.ext);
    RetainsUntouched(t, m.Tab());
    Same(t, m.Tab(), ranks, m.ranks, hs, s.values);
  }

  lemma RootsUntouched(s: Table, t: Table)
    requires RootsKept(s, t)
    ensures Untouched(s, t) && t.ext == s.ext
  {
    forall n | s.ext[n] > 0 && n in s.g
      ensures n in t.g && n in s.den && n in t.den && t.den[n] == s.den[n]
    {
      assert Root(s, n);
    }
  }

  method DoMoveVar(m: Manager, sc: Slots.Scratch, pc: P.ProductCache, hs: seq<Pointer>, v: nat, w: nat, ghost s: Model)
    requires Agrees(m, sc, pc, hs, s) && v < |s.layout.space| && w < |s.layout.space|
    modifies m
    ensures Stands(m, sc, pc, hs, s.values) && Arranged(s, MoveVar(v, w), LayoutOf(m)) && m.reorder == s.dynamic
  {
    hide TableOk, CacheOk, Inverse, Contiguous, Handles, Untouched, RootsKept, Moved;
    ghost var t, ranks, l := m.Tab(), m.ranks, LayoutOf(m);
    var done := ReorderVar(m, v, w);
    SameWidth(l, LayoutOf(m));
    SpaceOfRank(ranks, l.space, v);
    SpaceOfRank(ranks, l.space, w);
    assert m.reorder ==> MovedVar(l, v, w, LayoutOf(m), ranks[v], ranks[w], m.ranks[v]);
    RootsUntouched(t, m.Tab());
    Same(t, m.Tab(), ranks, m.ranks, hs, s.values);
  }

  method DoMergeGroups(m: Manager, sc: Slots.Scratch, pc: P.ProductCache, hs: seq<Pointer>, v: nat, w: nat, ghost s: Model)
    requires Agrees(m, sc, pc, hs, s) && v < |s.layout.space| && w < |s.layout.space|
    modifies m
    ensures Stands(m, sc, pc, hs, s.values) && Arranged(s, MergeGroups(v, w), LayoutOf(m)) && m.reorder == s.dynamic
  {
    hide TableOk, CacheOk, Inverse, Contiguous, Handles, Untouched, RootsKept, Merged;
    ghost var t, ranks, l := m.Tab(), m.ranks, LayoutOf(m);
    var ok;
    ghost var a, b;
    ok, a, b := MergeVarGroups(m, v, w);
    assert m.reorder ==> MergedVars(l, v, w, LayoutOf(m), a, b);
    RootsUntouched(t, m.Tab());
    Same(t, m.Tab(), ranks, m.ranks, hs, s.values);
  }

  method DoSetReorderable(m: Manager, sc: Slots.Scratch, pc: P.ProductCache, hs: seq<Pointer>, v: nat, on: bool, ghost s: Model)
    requires Agrees(m, sc, pc, hs, s) && v < |s.layout.space|
    modifies m
    ensures Stands(m, sc, pc, hs, s.values) && Arranged(s, SetReorderable(v, on), LayoutOf(m)) && m.reorder == s.dynamic
  {
    hide TableOk, CacheOk, Inverse, Contiguous, Handles, Flagged;
    ghost var l := LayoutOf(m);
    ghost var g := Reorder.SetReorderable(m, v, on);
    assert FlaggedVar(l, v, on, LayoutOf(m), g);
  }

  method DoUndoGroups(m: Manager, sc: Slots.Scratch, pc: P.ProductCache, hs: seq<Pointer>, ghost s: Model)
    requires Agrees(m, sc, pc, hs, s)
    modifies m`groups
    ensures Stands(m, sc, pc, hs, s.values) && Arranged(s, Commands.UndoGroups, LayoutOf(m)) && m.reorder == s.dynamic
  {
    hide TableOk, CacheOk, Inverse, Contiguous, Handles;
    Reorder.UndoGroups(m);
  }

  /** bdd_do_dynamic_ordering is set or reset. */
  method DoSetDynamic(m: Manager, sc: Slots.Scratch, pc: P.ProductCache, hs: seq<Pointer>, on: bool, ghost s: Model)
    requires Agrees(m, sc, pc, hs, s)
    modifies m`reorder
    ensures Stands(m, sc, pc, hs, s.values) && LayoutOf(m) == s.layout && m.reorder == on
  {
    m.reorder := on;
  }

  /** What one operation leaves. */
  ghost predicate Executed(m: Manager, sc: Slots.Scratch, pc: P.ProductCache, hs: seq<Pointer>, s: Model, c: Command)
    reads m, sc, pc
    requires Legal(|s.layout.space|, |s.values|, c)
  {
    && Stands(m, sc, pc, hs, Results(s.layout.space, s.values, c)) && Arranged(s, c, LayoutOf(m))
    && m.reorder == if c.SetDynamic? then c.on else s.dynamic
  }

  lemma ExecutedSteps(m: Manager, sc: Slots.Scratch, pc: P.ProductCache, hs: seq<Pointer>, s: Model, c: Command)
    requires Legal(|s.layout.space|, |s.values|, c) && Executed(m, sc, pc, hs, s, c)
    ensures var s' := Model(LayoutOf(m), m.reorder, Results(s.layout.space, s.values, c));
      Agrees(m, sc, pc, hs, s') && Steps(s, c, s') && |hs| == |s'.values|
  {
    hide Results, Arranged, Contiguous, TableOk, CacheOk, Legal;
    InverseSize(m.ranks, m.space);
    HandleCount(m.Tab(), hs, Results(s.layout.space, s.values, c));
  }

  /** One operation; garbage collection leaves no dead node. */
  method Execute(m: Manager, sc: Slots.Scratch, pc: P.ProductCache, hs: seq<Pointer>, c: Command, ghost s: Model)
    returns (hs': seq<Pointer>, ghost s': Model)
    requires Agrees(m, sc, pc, hs, s) && |hs| == |s.values| && Legal(|s.layout.space|, |s.values|, c)
    modifies m, sc, pc
    ensures Steps(s, c, s') && Agrees(m, sc, pc, hs', s') && |hs'| == |s'.values|
    ensures c.Gc? ==> m.nodes.Keys == old(Live(m.nodes, m.refs))
  {
    hide Agrees, Steps, Stands;
    hs' := hs;
    match c {
      case NewVar(w) => hs' := DoNewVar(m, sc, pc, hs, w, s);
      case Ite(i, j, k) => hs' := DoIte(m, sc, pc, hs, i, j, k, s);
      case Quantify(e, i, x) => hs' := DoQuantify(m, sc, pc, hs, e, i, x, s);
      case AndSmooth(i, j, x) => hs' := DoAndSmooth(m, sc, pc, hs, i, j, x, s);
      case Constrain(i, j) => hs' := DoConstrain(m, sc, pc, hs, i, j, s);
      case Restrict(i, j) => hs' := DoRestrict(m, sc, pc, hs, i, j, s);
      case Substitute(i, xs, js) => hs' := DoSubstitute(m, sc, pc, hs, i, xs, js, s);
      case Drop(i) => hs' := DoDrop(m, sc, pc, hs, i, s);
      case Gc => DoGc(m, sc, pc, hs, s);
      case Reorder => DoReorder(m, sc, pc, hs, s);
      case MoveVar(v, w) => DoMoveVar(m, sc, pc, hs, v, w, s);
      case MergeGroups(v, w) => DoMergeGroups(m, sc, pc, hs, v, w, s);
      case SetReorderable(v, on) => DoSetReorderable(m, sc, pc, hs, v, on, s);
      case SetDynamic(on) => DoSetDynamic(m, sc, pc, hs, on, s);
      case UndoGroups => DoUndoGroups(m, sc, pc, hs, s);
    }
    ExecutedSteps(m, sc, pc, hs', s, c);
    s' := Model(LayoutOf(m), m.reorder, Results(s.layout.space, s.values, c));
  }

  /** Two handles are the same pointer exactly when they stand for the same function, and differ
      in the inverter bit only exactly when they stand for complementary ones. */
  ghost predicate Canonical2(hs: seq<Pointer>, vs: seq<Value>)
    requires |hs| == |vs|
  {
    forall i, j :: 0 <= i < |hs| && 0 <= j < |hs| && vs[i].Value? && vs[j].Value? && hs[i].To? && hs[j].To? ==>
      && (hs[i] == hs[j] <==> vs[i].f == vs[j].f)
      && (hs[i].e == Compl(hs[j].e) <==> vs[i].f == Not(vs[j].f))
  }

  lemma HandlesCanonical(t: Table, ranks: seq<nat>, hs: seq<Pointer>, vs: seq<Value>)
    requires TableOk(t, ranks) && Handles(t, hs, vs)
    ensures Canonical2(hs, vs)
  {
    forall i, j | 0 <= i < |hs| && 0 <= j < |hs| && vs[i].Value? && vs[j].Value? && hs[i].To? && hs[j].To?
      ensures hs[i] == hs[j] <==> vs[i].f == vs[j].f
      ensures hs[i].e == Compl(hs[j].e) <==> vs[i].f == Not(vs[j].f)
    {
      assert HandleOk(t, hs[i], vs[i]) && HandleOk(t, hs[j], vs[j]);
      Canonical(t.g, ranks, t.den, hs[i].e, hs[j].e);
      Canonical(t.g, ranks, t.den, hs[i].e, Compl(hs[j].e));
      SemCompl(t.den, hs[j].e);
    }
  }

  /** The empty package with reordering on, and no handle. */
  ghost function Start(): Model {
    Model(Layout([], []), true, [])
  }

  /** Any legal run from an empty package: there is a run on models such that every handle denotes what
      that run says, order and groups of the variables are those of its end, and pointers are equal
      exactly when functions are. If nothing is constrained or restricted, the functions depend on the
      commands alone. */
  method Run(size: nat, cs: seq<Command>, hash: (Op, Edge, Edge) -> nat, hash2: (Edge, Edge) -> nat)
    returns (m: Manager, hs: seq<Pointer>, ghost tr: seq<Model>)
    requires size > 0 && LegalRun(0, 0, cs)
    ensures fresh(m) && m.Valid() && Trace(Start(), cs, tr)
    ensures Handles(m.Tab(), hs, tr[|cs|].values) && Canonical2(hs, tr[|cs|].values) && SameLayout(m, tr[|cs|])
    ensures NoChoice(cs) ==> tr[|cs|].values == Meaning(0, [], cs)
  {
    m := new Manager(size, hash);
    var sc := new Slots.Scratch();
    var pc := new P.ProductCache(size, hash2);
    hs, tr := [], [Start()];
    var n := 0;
    while n < |cs|
      invariant n <= |cs| && Trace(Start(), cs[..n], tr) && Agrees(m, sc, pc, hs, tr[n]) && |hs| == |tr[n].values|
      invariant LegalRun(|tr[n].layout.space|, |tr[n].values|, cs[n..])
      invariant fresh(m) && fresh(sc) && fresh(pc)
      modifies m, sc, pc
    {
      hide Agrees, Steps, Legal, Trace, LegalRun;
      LegalNext(|tr[n].layout.space|, |tr[n].values|, cs, n);
      TraceSize(Start(), cs[..n], tr);
      ghost var s;
      hs, s := Execute(m, sc, pc, hs, cs[n], tr[n]);
      StepsSize(tr[n], cs[n], s);
      TraceNext(Start(), cs, n, tr, s);
      tr := tr + [s];
      n := n + 1;
    }
    assert cs[..n] == cs;
    HandlesCanonical(m.Tab(), m.ranks, hs, tr[n].values);
    if NoChoice(cs) {
      Determined(Start(), cs, tr);
    }
  }
}
