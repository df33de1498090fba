/** Simultaneous substitution of functions for variables, on Boolean functions. */
module Compose {
  import opened Functions
  import opened Exists

  type Substitution = map<nat, Fn>

  /** The assignment at which the original function is evaluated: every substituted variable has
      the value its function has at a. */
  ghost function Under(sub: Substitution, a: Asg): Asg {
    (a - sub.Keys) + set x | x in sub.Keys && a in sub[x]
  }

  /** f with every variable of sub replaced, all at once. */
  ghost function Subst(f: Fn, sub: Substitution): Fn {
    iset a: Asg | Under(sub, a) in f
  }

  lemma UnderAt(sub: Substitution, a: Asg, x: nat)
    ensures x in Under(sub, a) <==> if x in sub then a in sub[x] else x in a
  {
  }

  /** A function without the substituted variables stays as it is. */
  lemma SubstNone(f: Fn, sub: Substitution)
    requires forall y: nat :: y in sub ==> Indep(f, y)
    ensures Subst(f, sub) == f
  {
    forall a: Asg
      ensures Under(sub, a) in f <==> a in f
    {
      forall y: nat | y !in sub.Keys
        ensures y in Under(sub, a) <==> y in a
      {
        UnderAt(sub, a, y);
      }
      IgnoredVars(f, Under(sub, a), a, sub.Keys);
    }
  }

  /** Substitution in a branch on v: the branch is taken on what stands for v. */
  lemma SubstBranch(v: nat, t: Fn, e: Fn, sub: Substitution)
    ensures Subst(Shannon(v, t, e), sub)
         == Ite(if v in sub then sub[v] else Shannon(v, True(), iset{}), Subst(t, sub), Subst(e, sub))
  {
    forall a: Asg
      ensures v in Under(sub, a) <==> a in if v in sub then sub[v] else Shannon(v, True(), iset{})
    {
      UnderAt(sub, a, v);
    }
  }

  lemma SubstNot(f: Fn, sub: Substitution)
    ensures Subst(Not(f), sub) == Not(Subst(f, sub))
  {
  }

  /** One substitution after another is the parallel substitution of the composed functions. */
  lemma SubstThen(f: Fn, s1: Substitution, s2: Substitution)
    ensures Subst(Subst(f, s1), s2)
         == Subst(f, map x | x in s1.Keys + s2.Keys :: if x in s1 then Subst(s1[x], s2) else s2[x])
  {
    var both: Substitution := map x | x in s1.Keys + s2.Keys :: if x in s1 then Subst(s1[x], s2) else s2[x];
    forall a: Asg
      ensures Under(s1, Under(s2, a)) == Under(both, a)
    {
      forall x: nat
        ensures x in Under(s1, Under(s2, a)) <==> x in Under(both, a)
      {
        UnderAt(s2, a, x);
        UnderAt(s1, Under(s2, a), x);
        UnderAt(both, a, x);
      }
    }
  }

  /** Substituting g for v is quantifying v away from f under v == g, as long as g ignores v. */
  lemma SubstIsSmooth(f: Fn, v: nat, g: Fn)
    requires Indep(g, v)
    ensures Subst(f, map[v := g]) == Smooth(f * Shannon(v, g, Not(g)), {v})
  {
    forall a: Asg
      ensures a in Subst(f, map[v := g]) <==> a in Smooth(f * Shannon(v, g, Not(g)), {v})
    {
      var a1, a0 := Assign(a, v, true), Assign(a, v, false);
      assert a1 in g <==> a in g;
      assert a0 in g <==> a in g;
      SmoothOne(f * Shannon(v, g, Not(g)), v, a);
      assert Under(map[v := g], a) == if a in g then a1 else a0;
    }
  }

  /** For the literal of v and u being v it fails: the literal is not the constant 1. */
  lemma RenameFails(v: nat)
    ensures var g := Shannon(v, True(), iset{});
      Subst(g, map[v := g]) == g && Smooth(g * Shannon(v, g, Not(g)), {v}) != g
  {
    var g := Shannon(v, True(), iset{});
    RenameIsSmooth(g, v, v);
    var e: Asg := {};
    assert Assign(e, v, true) in g && e !in g;
    assert !Indep(g, v);
    hide Smooth;
    SubstSelf(g, v);
  }

  /** Replacing a variable by itself changes nothing. */
  lemma SubstSelf(f: Fn, v: nat)
    ensures Subst(f, map[v := Shannon(v, True(), iset{})]) == f
  {
    var g := Shannon(v, True(), iset{});
    forall a: Asg
      ensures Under(map[v := g], a) == a
    {
    }
  }

  /** v is equivalent to itself. */
  lemma SelfEquivalent(f: Fn, v: nat)
    ensures var g := Shannon(v, True(), iset{}); f * Shannon(v, g, Not(g)) == f
  {
    var g := Shannon(v, True(), iset{});
    forall a: Asg
      ensures a in Shannon(v, g, Not(g))
    {
      assert a in g <==> v in a;
    }
  }

  /** Quantifying v away changes nothing exactly if v does not matter. */
  lemma SmoothFixed(f: Fn, v: nat)
    ensures Smooth(f, {v}) == f <==> Indep(f, v)
  {
    hide Smooth;
    if Smooth(f, {v}) == f {
      forall a: Asg, b: bool
        ensures Assign(a, v, b) in f <==> a in f
      {
        SmoothOne(f, v, a);
        SmoothOne(f, v, Assign(a, v, b));
        AssignTwice(a, v, b, true);
        AssignTwice(a, v, b, false);
      }
    }
    if Indep(f, v) {
      SmoothSkip(f, {v});
    }
  }

  /** Replacing v by variable u is quantifying v away from f under v == u; with u being v this would
      need f to ignore v. */
  lemma RenameIsSmooth(f: Fn, v: nat, u: nat)
    ensures var g := Shannon(u, True(), iset{});
      Subst(f, map[v := g]) == Smooth(f * Shannon(v, g, Not(g)), {v}) <==> u != v || Indep(f, v)
  {
    hide Smooth, Subst, Indep;
    var g := Shannon(u, True(), iset{});
    if u != v {
      LiteralIndep(u, v);
      SubstIsSmooth(f, v, g);
    } else {
      SelfEquivalent(f, v);
      SubstSelf(f, v);
      SmoothFixed(f, v);
    }
  }

  lemma LiteralIndep(u: nat, v: nat)
    requires u != v
    ensures Indep(Shannon(u, True(), iset{}), v)
  {
    ShannonIndepOther(u, True(), iset{}, v);
  }
}
