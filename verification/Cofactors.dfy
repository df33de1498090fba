/** What the generalised cofactors are for simple care sets: the ordinary cofactor for a cube, and f
    itself when f and c share no variable. */
module Cofactors {
  import opened Functions
  import opened Nearest
  import opened Simplify
  import opened Cubes

  /** f with the variables of a cube fixed. */
  ghost function Fixed(f: Fn, c: Cube): Fn {
    iset a: Asg | (a + c.pos) - c.neg in f
  }

  /** The variables of the cube are different, and all among those from rank r on. */
  ghost predicate CubeOf(space: seq<nat>, r: nat, c: Cube) {
    && c.pos !! c.neg
    && forall x {:trigger x in c.pos} {:trigger x in c.neg} :: x in c.pos || x in c.neg ==> exists i :: r <= i < |space| && space[i] == x
  }

  lemma CubeCof(c: Cube, x: nat)
    requires c.pos !! c.neg
    ensures x in c.pos ==> Cof(CubeFn(c), x, true) == CubeFn(Drop(c, x)) && Cof(CubeFn(c), x, false) == iset{}
    ensures x in c.neg ==> Cof(CubeFn(c), x, false) == CubeFn(Drop(c, x)) && Cof(CubeFn(c), x, true) == iset{}
    ensures x !in c.pos && x !in c.neg ==> Cof(CubeFn(c), x, true) == CubeFn(c) && Cof(CubeFn(c), x, false) == CubeFn(c)
    ensures CubeFn(c) != iset{}
  {
    assert c.pos in CubeFn(c);
  }

  lemma CubeDrop(space: seq<nat>, r: nat, c: Cube)
    requires CubeOf(space, r, c) && r < |space|
    ensures CubeOf(space, r + 1, Drop(c, space[r]))
    ensures space[r] !in c.pos && space[r] !in c.neg ==> Drop(c, space[r]) == c
  {
  }

  /** The nearest point of a cube: the variables of the cube are set, the others stay. */
  lemma {:induction false} ProjCube(space: seq<nat>, r: nat, c: Cube, a: Asg)
    requires CubeOf(space, r, c)
    ensures Proj(space, r, CubeFn(c), a) == (a + c.pos) - c.neg
    decreases |space| - r
  {
    hide Cof, CubeFn;
    if r < |space| {
      var x := space[r];
      var c' := Drop(c, x);
      CubeCof(c, x);
      CubeCof(c', x);
      CubeDrop(space, r, c);
      ProjCube(space, r + 1, c', a);
      ProjCube(space, r + 1, c', Assign(a, x, x !in a));
      assert x in c.pos ==> (Assign(a, x, true) + c'.pos) - c'.neg == (a + c.pos) - c.neg;
      assert x in c.neg ==> (Assign(a, x, false) + c'.pos) - c'.neg == (a + c.pos) - c.neg;
      assert x in a ==> Assign(a, x, true) == a;
      assert x !in a ==> Assign(a, x, false) == a;
    }
  }

  /** Constraining to a cube gives the cofactor. */
  lemma ConstrainCube(space: seq<nat>, f: Fn, c: Cube)
    requires CubeOf(space, 0, c)
    ensures Constrain(space, f, CubeFn(c)) == Fixed(f, c)
  {
    forall a: Asg
      ensures a in Constrain(space, f, CubeFn(c)) <==> a in Fixed(f, c)
    {
      ProjCube(space, 0, c, a);
    }
  }

  lemma FixedCof(f: Fn, c: Cube, x: nat)
    requires c.pos !! c.neg
    ensures x in c.pos ==> Fixed(f, c) == Fixed(Cof(f, x, true), Drop(c, x))
    ensures x in c.neg ==> Fixed(f, c) == Fixed(Cof(f, x, false), Drop(c, x))
    ensures x !in c.pos && x !in c.neg ==> Fixed(f, c) == Shannon(x, Fixed(Cof(f, x, true), c), Fixed(Cof(f, x, false), c))
  {
    forall a: Asg
      ensures x in c.pos ==> (a in Fixed(f, c) <==> a in Fixed(Cof(f, x, true), Drop(c, x)))
      ensures x in c.neg ==> (a in Fixed(f, c) <==> a in Fixed(Cof(f, x, false), Drop(c, x)))
      ensures x !in c.pos && x !in c.neg ==>
        (a in Fixed(f, c) <==> a in Shannon(x, Fixed(Cof(f, x, true), c), Fixed(Cof(f, x, false), c)))
    {
      var p, q := (a + c.pos) - c.neg, (a + Drop(c, x).pos) - Drop(c, x).neg;
      assert x in c.pos ==> Assign(q, x, true) == p;
      assert x in c.neg ==> Assign(q, x, false) == p;
      assert x !in c.pos && x !in c.neg ==> Assign(p, x, x in a) == p;
    }
  }

  lemma CofSame(f: Fn, x: nat, b: bool)
    requires Indep(f, x)
    ensures Cof(f, x, b) == f
  {
    CofIndep(f, x, b);
  }

  /** Restricting to a cube gives the cofactor as well. */
  lemma {:induction false} RestrictCube(space: seq<nat>, r: nat, f: Fn, c: Cube)
    requires CubeOf(space, r, c)
    ensures RestrictFrom(space, r, f, CubeFn(c)) == Fixed(f, c)
    decreases |space| - r
  {
    hide Cof, CubeFn, Fixed, Indep, Shannon, RestrictFrom;
    if r < |space| {
      var x := space[r];
      var c' := Drop(c, x);
      CubeCof(c, x);
      CubeDrop(space, r, c);
      FixedCof(f, c, x);
      RestrictOne(space, r, f, CubeFn(c));
      if Indep(f, x) {
        CofSame(f, x, true);
        CofSame(f, x, false);
        ShannonSame(x, Fixed(f, c));
        NoneAdded(CubeFn(c'));
        RestrictCube(space, r + 1, f, c');
      } else {
        RestrictCube(space, r + 1, Cof(f, x, true), c');
        RestrictCube(space, r + 1, Cof(f, x, false), c');
        CubeCof(c', x);
      }
    } else {
      NothingFixed(space, r, f, c);
    }
  }

  lemma NoneAdded(c: Fn)
    ensures c + c == c && c + iset{} == c && iset{} + c == c
  {
  }

  lemma NothingFixed(space: seq<nat>, r: nat, f: Fn, c: Cube)
    requires CubeOf(space, r, c) && r >= |space|
    ensures Fixed(f, c) == f && RestrictFrom(space, r, f, CubeFn(c)) == f
  {
    assert c.pos == {} && c.neg == {};
    forall a: Asg
      ensures (a + c.pos) - c.neg == a
    {
    }
  }

  /** Every variable is ignored by f or by c. */
  ghost predicate Apart(f: Fn, c: Fn) {
    forall x: nat {:trigger Indep(f, x)} {:trigger Indep(c, x)} :: Indep(f, x) || Indep(c, x)
  }

  lemma ApartCof(f: Fn, c: Fn, x: nat, b: bool)
    requires Apart(f, c)
    ensures Apart(f, Cof(c, x, b)) && Apart(Cof(f, x, b), c)
  {
    forall y: nat
      ensures Indep(f, y) || Indep(Cof(c, x, b), y)
      ensures Indep(Cof(f, x, b), y) || Indep(c, y)
    {
      CofIndep(c, x, b);
      CofIndep(f, x, b);
      assert Indep(f, y) || Indep(c, y);
      if y != x {
        if Indep(f, y) { CofIndepOther(f, x, b, y); } else { CofIndepOther(c, x, b, y); }
      }
    }
  }

  lemma SomeCof(c: Fn, x: nat, b: bool)
    requires c != iset{}
    ensures Cof(c, x, b) != iset{} || Cof(c, x, !b) != iset{}
  {
    var a :| a in c;
    AssignTwice(a, x, x in a, x in a);
    assert a in Cof(c, x, x in a);
  }

  /** Projecting onto c does not touch what f depends on. */
  lemma {:induction false} ProjApart(space: seq<nat>, r: nat, f: Fn, c: Fn, a: Asg)
    requires Apart(f, c) && c != iset{}
    ensures Proj(space, r, c, a) in f <==> a in f
    decreases |space| - r
  {
    hide Apart, Cof;
    if r < |space| {
      var x, b := space[r], space[r] in a;
      SomeCof(c, x, b);
      ApartCof(f, c, x, b);
      ApartCof(f, c, x, !b);
      if Cof(c, x, b) != iset{} {
        ProjApart(space, r + 1, f, Cof(c, x, b), a);
      } else {
        ProjApart(space, r + 1, f, Cof(c, x, !b), Assign(a, x, !b));
        assert Indep(f, x) by {
          if !Indep(f, x) {
            assert Indep(c, x) by { assert Apart(f, c); OneIgnores(f, c, x); }
            CofSame(c, x, b);
          }
        }
      }
    }
  }

  lemma OneIgnores(f: Fn, c: Fn, x: nat)
    requires Apart(f, c)
    ensures Indep(f, x) || Indep(c, x)
  {
  }

  /** With disjoint supports constraining changes nothing. */
  lemma ConstrainApart(space: seq<nat>, f: Fn, c: Fn)
    requires Apart(f, c) && c != iset{}
    ensures Constrain(space, f, c) == f
  {
    forall a: Asg
      ensures a in Constrain(space, f, c) <==> a in f
    {
      ProjApart(space, 0, f, c, a);
    }
  }

  /** Nor does restricting. */
  lemma {:induction false} RestrictApart(space: seq<nat>, r: nat, f: Fn, c: Fn)
    requires Apart(f, c) && c != iset{}
    ensures RestrictFrom(space, r, f, c) == f
    decreases |space| - r
  {
    hide Apart, Cof, Indep, Shannon;
    if r < |space| {
      hide RestrictFrom;
      var x := space[r];
      var f1, f0, c1, c0 := Cof(f, x, true), Cof(f, x, false), Cof(c, x, true), Cof(c, x, false);
      RestrictOne(space, r, f, c);
      SomeCof(c, x, true);
      if Indep(f, x) {
        ApartUnion(f, c, x);
        RestrictApart(space, r + 1, f, c1 + c0);
      } else {
        OneIgnores(f, c, x);
        CofSame(c, x, true);
        CofSame(c, x, false);
        ApartCof(f, c, x, true);
        ApartCof(f, c, x, false);
        RestrictApart(space, r + 1, f1, c);
        RestrictApart(space, r + 1, f0, c);
        ShannonCof(f, x);
      }
    }
  }

  lemma ApartUnion(f: Fn, c: Fn, x: nat)
    requires Apart(f, c)
    ensures Apart(f, Cof(c, x, true) + Cof(c, x, false))
  {
    var u := Cof(c, x, true) + Cof(c, x, false);
    ApartCof(f, c, x, true);
    ApartCof(f, c, x, false);
    forall y: nat
      ensures Indep(f, y) || Indep(u, y)
    {
      if !Indep(f, y) {
        assert Indep(Cof(c, x, true), y) && Indep(Cof(c, x, false), y);
      }
    }
  }
}
