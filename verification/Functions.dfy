/** Boolean functions as sets of satisfying assignments.

    An assignment is the finite set of variable ids that are true. */
module Functions {
  type Asg = set<nat>
  type Fn = iset<Asg>

  ghost function True(): Fn {
    Not(iset{})
  }

  ghost function Not(f: Fn): Fn {
    iset a: Asg | a !in f
  }

  ghost function Ite(f: Fn, g: Fn, h: Fn): Fn {
    iset a: Asg | if a in f then a in g else a in h
  }

  /** The function that is t where variable v is true and e elsewhere. */
  ghost function Shannon(v: nat, t: Fn, e: Fn): Fn {
    iset a: Asg | if v in a then a in t else a in e
  }

  function Assign(a: Asg, x: nat, b: bool): Asg {
    if b then a + {x} else a - {x}
  }

  ghost predicate Indep(f: Fn, x: nat) {
    forall a: Asg, b: bool :: Assign(a, x, b) in f <==> a in f
  }

  /** Branching on a variable. */
  lemma LiteralIte(v: nat, t: Fn, e: Fn)
    ensures Ite(Shannon(v, True(), iset{}), t, e) == Shannon(v, t, e)
  {
  }

  lemma AssignTwice(a: Asg, x: nat, b: bool, c: bool)
    ensures Assign(Assign(a, x, b), x, c) == Assign(a, x, c)
    ensures x in Assign(a, x, b) <==> b
    ensures (x in a) == b ==> Assign(a, x, b) == a
  {
  }

  lemma AssignOther(a: Asg, x: nat, b: bool, y: nat)
    requires x != y
    ensures y in Assign(a, x, b) <==> y in a
  {
  }

  lemma ShannonIndepOther(v: nat, t: Fn, e: Fn, x: nat)
    requires v != x && Indep(t, x) && Indep(e, x)
    ensures Indep(Shannon(v, t, e), x)
  {
    forall a: Asg, b: bool
      ensures Assign(a, x, b) in Shannon(v, t, e) <==> a in Shannon(v, t, e)
    {
      AssignOther(a, x, b, v);
    }
  }

  /** A variable the function ignores is ignored by its branches. */
  lemma BranchIndep(v: nat, t: Fn, e: Fn, w: nat)
    requires v != w && Indep(t, v) && Indep(e, v) && Indep(Shannon(v, t, e), w)
    ensures Indep(t, w) && Indep(e, w)
  {
    var f := Shannon(v, t, e);
    forall a: Asg, b: bool
      ensures Assign(a, w, b) in t <==> a in t
      ensures Assign(a, w, b) in e <==> a in e
    {
      var a1, a0 := Assign(a, v, true), Assign(a, v, false);
      var c1, c0 := Assign(Assign(a, w, b), v, true), Assign(Assign(a, w, b), v, false);
      assert c1 == Assign(a1, w, b) && c0 == Assign(a0, w, b);
      assert (c1 in f <==> a1 in f) && (c0 in f <==> a0 in f);
      assert (a1 in t <==> a in t) && (a0 in e <==> a in e);
      assert (c1 in t <==> Assign(a, w, b) in t) && (c0 in e <==> Assign(a, w, b) in e);
    }
  }

  /** A Shannon expansion whose branches ignore v determines its branches. */
  lemma ShannonInjective(v: nat, t: Fn, e: Fn, t': Fn, e': Fn)
    requires Indep(t, v) && Indep(e, v) && Indep(t', v) && Indep(e', v)
    requires Shannon(v, t, e) == Shannon(v, t', e')
    ensures t == t' && e == e'
  {
    forall a: Asg
      ensures (a in t <==> a in t') && (a in e <==> a in e')
    {
      var a1, a0 := Assign(a, v, true), Assign(a, v, false);
      assert a1 in Shannon(v, t, e) <==> a1 in Shannon(v, t', e');
      assert a0 in Shannon(v, t, e) <==> a0 in Shannon(v, t', e');
      assert (a1 in t <==> a in t) && (a0 in e <==> a in e);
      assert (a1 in t' <==> a in t') && (a0 in e' <==> a in e');
    }
  }

  lemma ShannonDepends(v: nat, t: Fn, e: Fn)
    requires Indep(t, v) && Indep(e, v) && t != e
    ensures !Indep(Shannon(v, t, e), v)
  {
    var f := Shannon(v, t, e);
    if Indep(f, v) {
      forall a: Asg
        ensures a in t <==> a in e
      {
        var a1, a0 := Assign(a, v, true), Assign(a, v, false);
        assert a1 in f <==> a in f;
        assert a0 in f <==> a in f;
        assert (a1 in t <==> a in t) && (a0 in e <==> a in e);
      }
    }
  }

  lemma IndepNot(f: Fn, x: nat)
    ensures Indep(f, x) <==> Indep(Not(f), x)
  {
    if Indep(Not(f), x) {
      forall a: Asg, b: bool
        ensures Assign(a, x, b) in f <==> a in f
      {
        assert Assign(a, x, b) in Not(f) <==> a in Not(f);
      }
    }
    if Indep(f, x) {
      forall a: Asg, b: bool
        ensures Assign(a, x, b) in Not(f) <==> a in Not(f)
      {
        assert Assign(a, x, b) in f <==> a in f;
      }
    }
  }

  lemma NotNot(f: Fn)
    ensures Not(Not(f)) == f
  {
  }

  lemma NotShannon(v: nat, t: Fn, e: Fn)
    ensures Not(Shannon(v, t, e)) == Shannon(v, Not(t), Not(e))
  {
  }

  lemma ShannonSame(v: nat, t: Fn)
    ensures Shannon(v, t, t) == t
  {
  }
}
