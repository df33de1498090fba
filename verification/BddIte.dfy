/** bdd_ite, the operator behind all binary operators: ite, then perhaps a reordering. */
module Operators {
  import opened Functions
  import opened Graph
  import opened State
  import opened IteOps
  import opened ConstrainOps
  import opened Size
  import opened Sift
  import opened Groups
  import opened Reorder

  lemma ImprovedRetains(s: Table, t: Table, x: multiset<nat>)
    requires Improved(s, t) && x <= s.ext
    ensures Retains(s, t, x) && t.ext == s.ext
  {
    forall n | x[n] > 0 && n in s.g
      ensures n in t.g && n in s.den && n in t.den && t.den[n] == s.den[n]
    {
      assert Root(s, n);
    }
  }

  /** bdd_ite. Whatever the thresholds decide, and whatever order the variables are in afterwards,
      the result is if-F-then-G-else-H and every reference held before keeps its function. */
  method BddIte(m: Manager, F: Pointer, G: Pointer, H: Pointer) returns (R: Pointer)
    requires m.Valid() && Contiguous(LayoutOf(m))
    requires !F.Void? && !G.Void? && !H.Void? ==> AliveP(m, F) && AliveP(m, G) && AliveP(m, H)
    modifies m
    ensures m.Valid() && Contiguous(LayoutOf(m)) && m.reorder == old(m.reorder) && |m.ranks| == old(|m.ranks|)
    ensures R.Void? <==> F.Void? || G.Void? || H.Void?
    ensures R.Void? ==> m.Tab() == old(m.Tab()) && LayoutOf(m) == old(LayoutOf(m))
    ensures Regrouped(old(LayoutOf(m)), LayoutOf(m))
    ensures R.To? ==>
      && In(m.nodes, R.e) && m.ext == old(m.ext) + multiset{R.e.node}
      && Sem(m.den, R.e) == old(Ite(Sem(m.den, F.e), Sem(m.den, G.e), Sem(m.den, H.e)))
      && Retains(old(m.Tab()), m.Tab(), old(m.ext))
    ensures !m.reorder ==> m.SameOrder(old(m.ranks), old(m.space), old(m.groups))
  {
    hide TableOk, CacheOk, Inverse, Kept, Contiguous, Retains, Improved, Regrouped;
    RegroupedSame(LayoutOf(m));
    if F.Void? || G.Void? || H.Void? {
      return Void;
    }
    ghost var s := m.Tab();
    var r := IteAux(m, Triple(F.e, G.e, H.e));
    R := To(r);
    KeptRetains(s, m.Tab(), m.ranks, s.ext);
    if * {
      ReorderAfter(m, r, s);
    }
  }

  method ReorderAfter(m: Manager, r: Edge, ghost s: Table)
    requires m.Valid() && Contiguous(LayoutOf(m)) && In(m.nodes, r)
    requires m.ext == s.ext + multiset{r.node} && Retains(s, m.Tab(), s.ext)
    modifies m
    ensures m.Valid() && Contiguous(LayoutOf(m)) && m.reorder == old(m.reorder) && |m.ranks| == old(|m.ranks|)
    ensures In(m.nodes, r) && m.ext == old(m.ext) && Sem(m.den, r) == old(Sem(m.den, r))
    ensures Retains(s, m.Tab(), s.ext) && Regrouped(old(LayoutOf(m)), LayoutOf(m))
    ensures !m.reorder ==> m.SameOrder(old(m.ranks), old(m.space), old(m.groups))
  {
    hide TableOk, CacheOk, Inverse, Contiguous, Retains, Improved, Regrouped;
    RegroupedSame(LayoutOf(m));
    ghost var t, ranks1 := m.Tab(), m.ranks;
    if m.reorder {
      ghost var run;
      var gain;
      gain, run := DynamicOrder(m);
      ImprovedRetains(t, m.Tab(), t.ext);
      RetainsIn(t, m.Tab(), ranks1, m.ranks, r);
      RetainsLess(t, m.Tab(), s.ext, multiset{r.node});
      RetainsTrans(s, t, m.Tab(), s.ext);
    }
  }

  lemma RetainsIn(s: Table, t: Table, ranks: seq<nat>, ranks': seq<nat>, e: Edge)
    requires TableOk(s, ranks) && TableOk(t, ranks') && Retains(s, t, s.ext) && s.ext[e.node] > 0 && In(s.g, e)
    ensures In(t.g, e) && Sem(t.den, e) == Sem(s.den, e)
  {
    RetainsSem(s, t, ranks, ranks', s.ext, e);
  }
}
