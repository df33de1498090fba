/** Quantification over a set of variables, on Boolean functions. */
module Exists {
  import opened Functions

  /** The two assignments differ only on variables of x. */
  ghost predicate Alike(a: Asg, b: Asg, x: set<nat>) {
    forall y: nat {:trigger y in a} {:trigger y in b} :: y !in x ==> (y in a <==> y in b)
  }

  ghost predicate Reaches(f: Fn, a: Asg, x: set<nat>) {
    exists b: Asg {:trigger Alike(a, b, x)} :: Alike(a, b, x) && b in f
  }

  /** f with the variables of x quantified existentially. */
  ghost function Smooth(f: Fn, x: set<nat>): Fn {
    iset a: Asg | Reaches(f, a, x)
  }

  /** f with the variables of x quantified universally. */
  ghost function Consensus(f: Fn, x: set<nat>): Fn {
    Not(Smooth(Not(f), x))
  }

  lemma InSmooth(f: Fn, x: set<nat>, a: Asg, b: Asg)
    requires Alike(a, b, x) && b in f
    ensures a in Smooth(f, x)
  {
    assert Reaches(f, a, x);
  }

  lemma SmoothWitness(f: Fn, x: set<nat>, a: Asg) returns (b: Asg)
    requires a in Smooth(f, x)
    ensures Alike(a, b, x) && b in f
  {
    assert Reaches(f, a, x);
    b :| Alike(a, b, x) && b in f;
  }

  /** A function that ignores the variables of x on which a and b differ cannot tell them apart. */
  lemma {:induction false} IgnoredVars(f: Fn, a: Asg, b: Asg, x: set<nat>)
    requires Alike(a, b, x) && forall y: nat :: y in x ==> Indep(f, y)
    ensures a in f <==> b in f
    decreases |(a - b) + (b - a)|
  {
    if a != b {
      var y :| y in (a - b) + (b - a);
      var a' := Assign(a, y, y in b);
      assert (a' - b) + (b - a') == ((a - b) + (b - a)) - {y};
      IgnoredVars(f, a', b, x);
      assert Indep(f, y);
    }
  }

  /** Variables f ignores need not be quantified. */
  lemma SmoothSkip(f: Fn, x: set<nat>)
    requires forall y: nat :: y in x ==> Indep(f, y)
    ensures Smooth(f, x) == f
  {
    forall a: Asg
      ensures a in Smooth(f, x) <==> a in f
    {
      if a in Smooth(f, x) {
        var b := SmoothWitness(f, x, a);
        IgnoredVars(f, a, b, x);
      }
      if a in f {
        InSmooth(f, x, a, a);
      }
    }
  }

  /** Over a variable that stays, quantification goes into the branches. */
  lemma SmoothKept(v: nat, t: Fn, e: Fn, x: set<nat>)
    requires v !in x
    ensures Smooth(Shannon(v, t, e), x) == Shannon(v, Smooth(t, x), Smooth(e, x))
  {
    var f := Shannon(v, t, e);
    forall a: Asg
      ensures a in Smooth(f, x) <==> a in Shannon(v, Smooth(t, x), Smooth(e, x))
    {
      if a in Smooth(f, x) {
        var b := SmoothWitness(f, x, a);
        assert v in a <==> v in b;
        if v in a { InSmooth(t, x, a, b); } else { InSmooth(e, x, a, b); }
      }
      if a in Shannon(v, Smooth(t, x), Smooth(e, x)) {
        var b := SmoothWitness(if v in a then t else e, x, a);
        assert v in a <==> v in b;
        InSmooth(f, x, a, b);
      }
    }
  }

  /** A quantified variable joins its branches. */
  lemma SmoothGone(v: nat, t: Fn, e: Fn, x: set<nat>)
    requires v in x && Indep(t, v) && Indep(e, v)
    ensures Smooth(Shannon(v, t, e), x) == Smooth(t, x) + Smooth(e, x)
  {
    var f := Shannon(v, t, e);
    forall a: Asg
      ensures a in Smooth(f, x) <==> a in Smooth(t, x) + Smooth(e, x)
    {
      if a in Smooth(f, x) {
        var b := SmoothWitness(f, x, a);
        if v in b { InSmooth(t, x, a, b); } else { InSmooth(e, x, a, b); }
      }
      if a in Smooth(t, x) {
        var b := SmoothWitness(t, x, a);
        SmoothThrough(v, t, e, x, a, b, true);
      }
      if a in Smooth(e, x) {
        var b := SmoothWitness(e, x, a);
        SmoothThrough(v, t, e, x, a, b, false);
      }
    }
  }

  lemma SmoothThrough(v: nat, t: Fn, e: Fn, x: set<nat>, a: Asg, b: Asg, c: bool)
    requires v in x && Alike(a, b, x) && Indep(if c then t else e, v) && b in if c then t else e
    ensures a in Smooth(Shannon(v, t, e), x)
  {
    var b' := Assign(b, v, c);
    assert b' in if c then t else e;
    InSmooth(Shannon(v, t, e), x, a, b');
  }

  /** Quantifying one more variable means quantifying it on top. */
  lemma SmoothOneMore(f: Fn, x: set<nat>, v: nat)
    ensures Smooth(f, x + {v}) == Smooth(Smooth(f, x), {v})
  {
    forall a: Asg
      ensures a in Smooth(f, x + {v}) <==> a in Smooth(Smooth(f, x), {v})
    {
      if a in Smooth(f, x + {v}) {
        var b := SmoothWitness(f, x + {v}, a);
        var c := Assign(a, v, v in b);
        InSmooth(f, x, c, b);
        InSmooth(Smooth(f, x), {v}, a, c);
      }
      if a in Smooth(Smooth(f, x), {v}) {
        var c := SmoothWitness(Smooth(f, x), {v}, a);
        var b := SmoothWitness(f, x, c);
        InSmooth(f, x + {v}, a, b);
      }
    }
  }

  /** One quantified variable: the union of the two cofactors, as the definition of smoothing. */
  lemma SmoothOne(f: Fn, v: nat, a: Asg)
    ensures a in Smooth(f, {v}) <==> Assign(a, v, true) in f || Assign(a, v, false) in f
  {
    if a in Smooth(f, {v}) {
      var b := SmoothWitness(f, {v}, a);
      assert b == Assign(a, v, v in b);
    }
    if Assign(a, v, true) in f { InSmooth(f, {v}, a, Assign(a, v, true)); }
    if Assign(a, v, false) in f { InSmooth(f, {v}, a, Assign(a, v, false)); }
  }

  /** Universal quantification, branch by branch. */
  lemma ConsensusKept(v: nat, t: Fn, e: Fn, x: set<nat>)
    requires v !in x
    ensures Consensus(Shannon(v, t, e), x) == Shannon(v, Consensus(t, x), Consensus(e, x))
  {
    NotShannon(v, t, e);
    SmoothKept(v, Not(t), Not(e), x);
    NotShannon(v, Smooth(Not(t), x), Smooth(Not(e), x));
  }

  lemma ConsensusGone(v: nat, t: Fn, e: Fn, x: set<nat>)
    requires v in x && Indep(t, v) && Indep(e, v)
    ensures Consensus(Shannon(v, t, e), x) == Consensus(t, x) * Consensus(e, x)
  {
    NotShannon(v, t, e);
    IndepNot(t, v);
    IndepNot(e, v);
    SmoothGone(v, Not(t), Not(e), x);
  }

  lemma ConsensusSkip(f: Fn, x: set<nat>)
    requires forall y: nat :: y in x ==> Indep(f, y)
    ensures Consensus(f, x) == f
  {
    forall y: nat | y in x
      ensures Indep(Not(f), y)
    {
      IndepNot(f, y);
    }
    SmoothSkip(Not(f), x);
    NotNot(f);
  }

  /** The two quantifiers are dual. */
  lemma Dual(f: Fn, x: set<nat>)
    ensures Smooth(Not(f), x) == Not(Consensus(f, x)) && Consensus(Not(f), x) == Not(Smooth(f, x))
  {
    NotNot(f);
    NotNot(Smooth(Not(f), x));
  }
}
