/** The generalised cofactor on Boolean functions: f constrained to c is f applied to the point
    of c nearest to the argument, where a difference at rank r weighs 2^(n-1-r). */
module Nearest {
  import opened Sets
  import opened Functions

  ghost function Cof(f: Fn, x: nat, b: bool): Fn {
    iset a: Asg | Assign(a, x, b) in f
  }

  /** Decide the variables of space[r..] in order, keeping each bit of a that c still allows. */
  ghost function Proj(space: seq<nat>, r: nat, c: Fn, a: Asg): Asg
    decreases |space| - r
  {
    if r >= |space| then a
    else
      var x := space[r];
      var b := x in a;
      if Cof(c, x, b) != iset{} then Proj(space, r + 1, Cof(c, x, b), a)
      else Proj(space, r + 1, Cof(c, x, !b), Assign(a, x, !b))
  }

  ghost function Constrain(space: seq<nat>, f: Fn, c: Fn): Fn {
    iset a: Asg | Proj(space, 0, c, a) in f
  }

  ghost function ConstrainFrom(space: seq<nat>, r: nat, f: Fn, c: Fn): Fn {
    iset a: Asg | Proj(space, r, c, a) in f
  }

  function Pow2(n: nat): nat {
    if n == 0 then 1 else 2 * Pow2(n - 1)
  }

  /** The weighted distance between two assignments over space[r..]. */
  function Dist(space: seq<nat>, r: nat, a: Asg, z: Asg): nat
    decreases |space| - r
  {
    if r >= |space| then 0
    else (if (space[r] in a) != (space[r] in z) then Pow2(|space| - 1 - r) else 0)
         + Dist(space, r + 1, a, z)
  }

  lemma CofIndep(f: Fn, x: nat, b: bool)
    ensures Indep(Cof(f, x, b), x)
    ensures Indep(f, x) ==> Cof(f, x, b) == f
  {
    forall a: Asg, d: bool
      ensures Assign(a, x, d) in Cof(f, x, b) <==> a in Cof(f, x, b)
    {
      AssignTwice(a, x, d, b);
    }
  }

  lemma IndepAt(f: Fn, x: nat, a: Asg, b: bool)
    requires Indep(f, x)
    ensures Assign(a, x, b) in f <==> a in f
  {
  }

  lemma CofShannon(x: nat, c1: Fn, c0: Fn)
    requires Indep(c1, x) && Indep(c0, x)
    ensures Cof(Shannon(x, c1, c0), x, true) == c1 && Cof(Shannon(x, c1, c0), x, false) == c0
  {
    hide Indep;
    forall a: Asg
      ensures a in Cof(Shannon(x, c1, c0), x, true) <==> a in c1
      ensures a in Cof(Shannon(x, c1, c0), x, false) <==> a in c0
    {
      IndepAt(c1, x, a, true);
      IndepAt(c0, x, a, false);
    }
  }

  lemma AssignCommute(a: Asg, x: nat, b: bool, y: nat, c: bool)
    requires x != y
    ensures Assign(Assign(a, x, b), y, c) == Assign(Assign(a, y, c), x, b)
  {
  }

  lemma CofIndepOther(f: Fn, x: nat, b: bool, y: nat)
    requires Indep(f, y) && x != y
    ensures Indep(Cof(f, x, b), y)
  {
    forall a: Asg, d: bool
      ensures Assign(a, y, d) in Cof(f, x, b) <==> a in Cof(f, x, b)
    {
      AssignCommute(a, y, d, x, b);
      assert Assign(Assign(a, x, b), y, d) in f <==> Assign(a, x, b) in f;
    }
  }

  lemma DistFrame(space: seq<nat>, r: nat, a: Asg, z: Asg, x: nat, b: bool)
    requires forall i :: r <= i < |space| ==> space[i] != x
    ensures Dist(space, r, Assign(a, x, b), z) == Dist(space, r, a, z)
    decreases |space| - r
  {
    if r < |space| {
      DistFrame(space, r + 1, a, z, x, b);
    }
  }

  lemma {:induction false} DistBound(space: seq<nat>, r: nat, a: Asg, z: Asg)
    requires r <= |space|
    ensures Dist(space, r, a, z) < Pow2(|space| - r)
    decreases |space| - r
  {
    if r < |space| {
      DistBound(space, r + 1, a, z);
    }
  }

  /** The projection touches no variable outside space[r..]. */
  lemma {:induction false} ProjFrame(space: seq<nat>, r: nat, c: Fn, a: Asg, x: nat)
    requires forall i :: r <= i < |space| ==> space[i] != x
    ensures x in Proj(space, r, c, a) <==> x in a
    decreases |space| - r
  {
    if r < |space| {
      var y, b := space[r], space[r] in a;
      ProjFrame(space, r + 1, Cof(c, y, b), a, x);
      ProjFrame(space, r + 1, Cof(c, y, !b), Assign(a, y, !b), x);
      AssignOther(a, y, !b, x);
    }
  }

  /** A variable that is not decided any more can be set before or after projecting. */
  lemma {:induction false} ProjAssign(space: seq<nat>, r: nat, c: Fn, a: Asg, x: nat, b: bool)
    requires forall i :: r <= i < |space| ==> space[i] != x
    ensures Proj(space, r, c, Assign(a, x, b)) == Assign(Proj(space, r, c, a), x, b)
    decreases |space| - r
  {
    if r < |space| {
      var y, d := space[r], space[r] in a;
      AssignOther(a, x, b, y);
      ProjAssign(space, r + 1, Cof(c, y, d), a, x, b);
      ProjAssign(space, r + 1, Cof(c, y, !d), Assign(a, y, !d), x, b);
      AssignCommute(a, x, b, y, !d);
    }
  }

  /** The projection reaches c, stays put on c, and no point of c is nearer. */
  lemma {:induction false} ProjNearest(space: seq<nat>, r: nat, c: Fn, a: Asg, z: Asg)
    requires Distinct(space) && r <= |space|
    requires c != iset{}
    requires forall x: nat :: (forall i :: r <= i < |space| ==> space[i] != x) ==> Indep(c, x)
    requires z in c
    ensures Proj(space, r, c, a) in c
    ensures a in c ==> Proj(space, r, c, a) == a
    ensures Dist(space, r, a, Proj(space, r, c, a)) <= Dist(space, r, a, z)
    decreases |space| - r
  {
    if r == |space| {
      ConstantWhenIndep(c, z, a);
    } else {
      var x, b := space[r], space[r] in a;
      var keep := Cof(c, x, b) != iset{};
      var d := if keep then b else !b;
      var c' := Cof(c, x, d);
      var a' := Assign(a, x, d);
      AssignTwice(a, x, d, d);
      AssignTwice(z, x, x in z, x in z);
      assert z in Cof(c, x, x in z);
      assert c' != iset{};
      assert Proj(space, r, c, a) == Proj(space, r + 1, c', a');
      forall y: nat | forall i :: r + 1 <= i < |space| ==> space[i] != y
        ensures Indep(c', y)
      {
        CofIndep(c, x, d);
        if y != x { CofIndepOther(c, x, d, y); }
      }
      var w: Asg := if (x in z) == d then z else var w :| w in c'; w;
      ProjNearest(space, r + 1, c', a', w);
      var p := Proj(space, r, c, a);
      ProjFrame(space, r + 1, c', a', x);
      AssignTwice(p, x, d, d);
      DistFrame(space, r + 1, a, p, x, d);
      DistFrame(space, r + 1, a, z, x, d);
      DistBound(space, r + 1, a, p);
      if a in c {
        AssignTwice(a, x, b, b);
        assert a in Cof(c, x, b);
      }
    }
  }

  lemma ConstantWhenIndep(c: Fn, z: Asg, a: Asg)
    requires forall x: nat :: Indep(c, x)
    requires z in c
    ensures a in c
    decreases |(z - a) + (a - z)|
  {
    if z != a {
      var x :| x in (z - a) + (a - z);
      var z' := Assign(z, x, x in a);
      assert Indep(c, x);
      assert (z' - a) + (a - z') == ((z - a) + (a - z)) - {x};
      ConstantWhenIndep(c, z', a);
    }
  }

  /** Equal distance means equal point: the nearest point is unique. */
  lemma {:induction false} SameDistanceSamePoint(space: seq<nat>, r: nat, a: Asg, y: Asg, z: Asg)
    requires r <= |space|
    requires Dist(space, r, a, y) == Dist(space, r, a, z)
    ensures forall i :: r <= i < |space| ==> (space[i] in y <==> space[i] in z)
    decreases |space| - r
  {
    if r < |space| {
      DistBound(space, r + 1, a, y);
      DistBound(space, r + 1, a, z);
      SameDistanceSamePoint(space, r + 1, a, y, z);
    }
  }
}
