/** The restrict operator on Boolean functions: f simplified against a care set c, the variables
    taken in their order. A variable f ignores is quantified away from c first. */
module Simplify {
  import opened Functions
  import opened Nearest

  ghost function RestrictFrom(space: seq<nat>, r: nat, f: Fn, c: Fn): Fn
    decreases |space| - r
  {
    if r >= |space| then f
    else
      var x := space[r];
      var f1, f0, c1, c0 := Cof(f, x, true), Cof(f, x, false), Cof(c, x, true), Cof(c, x, false);
      if Indep(f, x) then RestrictFrom(space, r + 1, f, c1 + c0)
      else if c0 == iset{} then RestrictFrom(space, r + 1, f1, c1)
      else if c1 == iset{} then RestrictFrom(space, r + 1, f0, c0)
      else Shannon(x, RestrictFrom(space, r + 1, f1, c1), RestrictFrom(space, r + 1, f0, c0))
  }

  ghost function Restrict(space: seq<nat>, f: Fn, c: Fn): Fn {
    RestrictFrom(space, 0, f, c)
  }

  /** A restricted function agrees with f on c and depends on no variable f ignores. */
  ghost predicate Restricts(r: Fn, f: Fn, c: Fn) {
    && (forall a: Asg :: a in c ==> (a in r <==> a in f))
    && (forall x: nat :: Indep(f, x) ==> Indep(r, x))
  }

  lemma RestrictsWider(r: Fn, f: Fn, c: Fn, c': Fn)
    requires Restricts(r, f, c') && c <= c'
    ensures Restricts(r, f, c)
  {
  }

  lemma RestrictsSame(f: Fn, c: Fn)
    ensures Restricts(f, f, c)
  {
  }

  /** One branch of c is empty: only the other branch of f matters. */
  lemma RestrictsBranch(v: nat, b: bool, r: Fn, f1: Fn, f0: Fn, c1: Fn, c0: Fn)
    requires Indep(f1, v) && Indep(f0, v)
    requires if b then c0 == iset{} && Restricts(r, f1, c1) else c1 == iset{} && Restricts(r, f0, c0)
    ensures Restricts(r, Shannon(v, f1, f0), Shannon(v, c1, c0))
  {
    forall x: nat | Indep(Shannon(v, f1, f0), x)
      ensures Indep(r, x)
    {
      if x != v {
        BranchIndep(v, f1, f0, x);
      }
    }
  }

  lemma RestrictsAgree(v: nat, r1: Fn, r0: Fn, f1: Fn, f0: Fn, c1: Fn, c0: Fn, a: Asg)
    requires Restricts(r1, f1, c1) && Restricts(r0, f0, c0) && a in Shannon(v, c1, c0)
    ensures a in Shannon(v, r1, r0) <==> a in Shannon(v, f1, f0)
  {
  }

  /** Both branches matter; f depends on v. */
  lemma RestrictsBoth(v: nat, r1: Fn, r0: Fn, f1: Fn, f0: Fn, c1: Fn, c0: Fn)
    requires Indep(f1, v) && Indep(f0, v) && !Indep(Shannon(v, f1, f0), v)
    requires Restricts(r1, f1, c1) && Restricts(r0, f0, c0)
    ensures Restricts(Shannon(v, r1, r0), Shannon(v, f1, f0), Shannon(v, c1, c0))
  {
    hide Indep;
    forall a: Asg | a in Shannon(v, c1, c0)
      ensures a in Shannon(v, r1, r0) <==> a in Shannon(v, f1, f0)
    {
      RestrictsAgree(v, r1, r0, f1, f0, c1, c0, a);
    }
    forall x: nat | Indep(Shannon(v, f1, f0), x)
      ensures Indep(Shannon(v, r1, r0), x)
    {
      BranchIndep(v, f1, f0, x);
      ShannonIndepOther(v, r1, r0, x);
    }
  }

  lemma ShannonCof(f: Fn, x: nat)
    ensures f == Shannon(x, Cof(f, x, true), Cof(f, x, false))
    ensures Indep(Cof(f, x, true), x) && Indep(Cof(f, x, false), x)
  {
    CofIndep(f, x, true);
    CofIndep(f, x, false);
    hide Indep;
    forall a: Asg
      ensures a in f <==> a in Shannon(x, Cof(f, x, true), Cof(f, x, false))
    {
      AssignTwice(a, x, x in a, x in a);
    }
  }

  lemma WithinUnion(x: nat, c1: Fn, c0: Fn)
    ensures Shannon(x, c1, c0) <= c1 + c0
  {
  }

  /** The outcome agrees with f on c and depends on no more variables than f. */
  lemma {:induction false} RestrictFromOk(space: seq<nat>, r: nat, f: Fn, c: Fn)
    ensures Restricts(RestrictFrom(space, r, f, c), f, c)
    decreases |space| - r
  {
    hide Restricts, Indep, Cof, Shannon;
    if r >= |space| {
      RestrictsSame(f, c);
    } else {
      var x := space[r];
      var f1, f0, c1, c0 := Cof(f, x, true), Cof(f, x, false), Cof(c, x, true), Cof(c, x, false);
      ShannonCof(f, x);
      ShannonCof(c, x);
      RestrictFromOk(space, r + 1, f, c1 + c0);
      RestrictFromOk(space, r + 1, f1, c1);
      RestrictFromOk(space, r + 1, f0, c0);
      if Indep(f, x) {
        WithinUnion(x, c1, c0);
        RestrictsWider(RestrictFrom(space, r, f, c), f, c, c1 + c0);
      } else if c0 == iset{} {
        RestrictsBranch(x, true, RestrictFrom(space, r, f, c), f1, f0, c1, c0);
      } else if c1 == iset{} {
        RestrictsBranch(x, false, RestrictFrom(space, r, f, c), f1, f0, c1, c0);
      } else {
        RestrictsBoth(x, RestrictFrom(space, r + 1, f1, c1), RestrictFrom(space, r + 1, f0, c0), f1, f0, c1, c0);
      }
    }
  }

  lemma RestrictOk(space: seq<nat>, f: Fn, c: Fn)
    ensures Restricts(Restrict(space, f, c), f, c)
  {
    RestrictFromOk(space, 0, f, c);
  }

  // ---- the shape of the recursion

  /** What deciding x makes of the branches. */
  ghost predicate Decides(space: seq<nat>, r: nat, R: Fn, f: Fn, f1: Fn, f0: Fn, c1: Fn, c0: Fn)
    requires r < |space|
  {
    R == if Indep(f, space[r]) then RestrictFrom(space, r + 1, f, c1 + c0)
         else if c0 == iset{} then RestrictFrom(space, r + 1, f1, c1)
         else if c1 == iset{} then RestrictFrom(space, r + 1, f0, c0)
         else Shannon(space[r], RestrictFrom(space, r + 1, f1, c1), RestrictFrom(space, r + 1, f0, c0))
  }

  lemma RestrictOne(space: seq<nat>, r: nat, f: Fn, c: Fn)
    requires r < |space|
    ensures var x := space[r];
      Decides(space, r, RestrictFrom(space, r, f, c), f, Cof(f, x, true), Cof(f, x, false), Cof(c, x, true), Cof(c, x, false))
  {
    hide Indep, Cof, Shannon;
  }

  lemma SkipOne(space: seq<nat>, r: nat, f: Fn, c: Fn)
    requires r < |space| && Indep(f, space[r]) && Indep(c, space[r])
    ensures RestrictFrom(space, r, f, c) == RestrictFrom(space, r + 1, f, c)
  {
    RestrictOne(space, r, f, c);
    CofIndep(c, space[r], true);
    CofIndep(c, space[r], false);
    Twice(c);
    hide RestrictFrom, Cof, Shannon, Indep;
  }

  /** While both ignore the variables, nothing happens. */
  lemma {:induction false} RestrictSkip(space: seq<nat>, r: nat, r': nat, f: Fn, c: Fn)
    requires r <= r' <= |space| && forall i {:trigger space[i]} :: r <= i < r' ==> Indep(f, space[i]) && Indep(c, space[i])
    ensures RestrictFrom(space, r, f, c) == RestrictFrom(space, r', f, c)
    decreases r' - r
  {
    hide RestrictFrom, Indep;
    if r < r' {
      assert Indep(f, space[r]) && Indep(c, space[r]);
      SkipOne(space, r, f, c);
      RestrictSkip(space, r + 1, r', f, c);
    }
  }

  lemma Twice(c: Fn)
    ensures c + c == c
  {
  }

  /** A constant stays. */
  lemma {:induction false} RestrictConst(space: seq<nat>, r: nat, f: Fn, c: Fn)
    requires forall x: nat {:trigger Indep(f, x)} :: Indep(f, x)
    ensures RestrictFrom(space, r, f, c) == f
    decreases |space| - r
  {
    hide Indep, Cof;
    if r < |space| {
      assert Indep(f, space[r]);
      RestrictConst(space, r + 1, f, Cof(c, space[r], true) + Cof(c, space[r], false));
    }
  }

  lemma TrueCof(x: nat, b: bool)
    ensures Cof(True(), x, b) == True() && True() != iset{}
  {
    var e: Asg := {};
    assert e in True();
  }

  lemma TrueOne(space: seq<nat>, r: nat, f: Fn, c: Fn)
    requires r < |space| && c == True()
    ensures var x := space[r];
      RestrictFrom(space, r, f, c) ==
        if Indep(f, x) then RestrictFrom(space, r + 1, f, c)
        else Shannon(x, RestrictFrom(space, r + 1, Cof(f, x, true), c), RestrictFrom(space, r + 1, Cof(f, x, false), c))
  {
    hide RestrictFrom, Cof, Shannon, Indep, True, Decides;
    var x := space[r];
    RestrictOne(space, r, f, c);
    TrueCof(x, true);
    TrueCof(x, false);
    DecidesSame(space, r, RestrictFrom(space, r, f, c), f, Cof(f, x, true), Cof(f, x, false), c);
  }

  lemma DecidesSame(space: seq<nat>, r: nat, R: Fn, f: Fn, f1: Fn, f0: Fn, c: Fn)
    requires r < |space| && c != iset{} && Decides(space, r, R, f, f1, f0, c, c)
    ensures R == if Indep(f, space[r]) then RestrictFrom(space, r + 1, f, c)
                 else Shannon(space[r], RestrictFrom(space, r + 1, f1, c), RestrictFrom(space, r + 1, f0, c))
  {
    hide RestrictFrom, Shannon, Indep;
    Twice(c);
  }

  /** Everything is cared for. */
  lemma {:induction false} RestrictTrue(space: seq<nat>, r: nat, f: Fn, c: Fn)
    requires c == True()
    ensures RestrictFrom(space, r, f, c) == f
    decreases |space| - r
  {
    hide Indep, Cof, Shannon, True;
    if r < |space| {
      hide RestrictFrom;
      var x := space[r];
      TrueOne(space, r, f, c);
      ShannonCof(f, x);
      RestrictTrue(space, r + 1, f, c);
      RestrictTrue(space, r + 1, Cof(f, x, true), c);
      RestrictTrue(space, r + 1, Cof(f, x, false), c);
    }
  }

  /** One variable, with f and c given by their branches. */
  lemma RestrictStep(space: seq<nat>, r: nat, f1: Fn, f0: Fn, c1: Fn, c0: Fn)
    requires r < |space|
    requires var x := space[r]; Indep(f1, x) && Indep(f0, x) && Indep(c1, x) && Indep(c0, x)
    ensures var x := space[r];
      var f, c := Shannon(x, f1, f0), Shannon(x, c1, c0);
      Decides(space, r, RestrictFrom(space, r, f, c), f, f1, f0, c1, c0)
  {
    var x := space[r];
    CofShannon(x, f1, f0);
    CofShannon(x, c1, c0);
    RestrictOne(space, r, Shannon(x, f1, f0), Shannon(x, c1, c0));
    hide Indep, Cof, Shannon, Decides;
  }
}
