/** Products of literals, prime implicants and covers, on Boolean functions. */
module Cubes {
  import opened Sets
  import opened Functions

  /** A product of literals: the variables that must be true and those that must be false. */
  datatype Cube = Cube(pos: set<nat>, neg: set<nat>)

  ghost function CubeFn(c: Cube): Fn {
    iset a: Asg | c.pos <= a && c.neg !! a
  }

  function Drop(c: Cube, x: nat): Cube {
    Cube(c.pos - {x}, c.neg - {x})
  }

  /** c implies f, and no product with a literal less does. */
  ghost predicate PrimeCube(c: Cube, f: Fn) {
    && c.pos !! c.neg && CubeFn(c) <= f
    && (forall x {:trigger Drop(c, x)} :: x in c.pos + c.neg ==> !(CubeFn(Drop(c, x)) <= f))
  }

  ghost predicate Prime(p: Fn, f: Fn) {
    exists c {:trigger PrimeCube(c, f)} :: PrimeCube(c, f) && p == CubeFn(c)
  }

  ghost predicate InSome(ps: seq<Fn>, a: Asg) {
    exists i {:trigger ps[i]} :: 0 <= i < |ps| && a in ps[i]
  }

  ghost predicate InOther(ps: seq<Fn>, p: Fn, a: Asg) {
    exists i {:trigger ps[i]} :: 0 <= i < |ps| && ps[i] != p && a in ps[i]
  }

  /** The disjunction of a list of functions. */
  ghost function Sum(ps: seq<Fn>): Fn {
    iset a: Asg | InSome(ps, a)
  }

  /** The disjunction of those that are not p. */
  ghost function SumExcept(ps: seq<Fn>, p: Fn): Fn {
    iset a: Asg | InOther(ps, p, a)
  }

  /** Distinct prime implicants of f that together are f. */
  ghost predicate PrimeCover(ps: seq<Fn>, f: Fn) {
    && Distinct(ps) && Sum(ps) == f
    && (forall i {:trigger ps[i]} :: 0 <= i < |ps| ==> Prime(ps[i], f))
  }

  /** No member can be left out. */
  ghost predicate Irredundant(ps: seq<Fn>, f: Fn) {
    forall i {:trigger ps[i]} :: 0 <= i < |ps| ==> SumExcept(ps, ps[i]) != f
  }

  ghost function Lit(v: nat, b: bool): Fn {
    if b then Shannon(v, True(), iset{}) else Shannon(v, iset{}, True())
  }

  /** A product without contradiction has a satisfying assignment. */
  lemma PrimeNonEmpty(p: Fn, f: Fn)
    requires Prime(p, f)
    ensures p != iset{} && p <= f
  {
    var c :| PrimeCube(c, f) && p == CubeFn(c);
    assert c.pos in CubeFn(c);
  }

  lemma WithMore(c: Cube, x: nat)
    ensures c.pos !! c.neg && x !in c.neg ==> c.pos + {x} in CubeFn(c)
  {
  }

  lemma DropBetween(c: Cube, d: Cube, x: nat)
    ensures d.pos <= c.pos && d.neg <= c.neg && x !in d.pos + d.neg ==> CubeFn(Drop(c, x)) <= CubeFn(d)
  {
  }

  /** A prime implicant is a largest product below f: no product in between. */
  lemma PrimeMaximal(p: Fn, f: Fn, d: Cube)
    requires Prime(p, f) && p <= CubeFn(d) && CubeFn(d) <= f
    ensures CubeFn(d) == p
  {
    var c :| PrimeCube(c, f) && p == CubeFn(c);
    assert c.pos in CubeFn(c);
    forall x | x in d.neg
      ensures x in c.neg
    {
      WithMore(c, x);
    }
    forall x | x in c.pos + c.neg
      ensures x in d.pos + d.neg
    {
      DropBetween(c, d, x);
    }
    assert d.pos <= c.pos && d.neg <= c.neg && c.pos !! c.neg;
    forall x
      ensures (x in c.pos ==> x in d.pos) && (x in c.neg ==> x in d.neg)
    {
      assert x in c.pos + c.neg ==> x in d.pos + d.neg;
    }
    assert c == d;
  }

  /** A prime implicant has no literal of a variable the function ignores. */
  lemma PrimeIgnores(c: Cube, f: Fn, v: nat)
    requires PrimeCube(c, f) && Indep(f, v)
    ensures v !in c.pos + c.neg && Indep(CubeFn(c), v)
  {
    assert v in c.pos + c.neg ==> !(CubeFn(Drop(c, v)) <= f);
    if v in c.pos + c.neg {
      forall a: Asg | a in CubeFn(Drop(c, v))
        ensures a in f
      {
        var a' := Assign(a, v, v in c.pos);
        assert a' in CubeFn(c);
        assert Assign(a, v, v in c.pos) in f <==> a in f;
      }
      assert false;
    }
    CubeIgnores(c, v);
  }

  lemma CubeIgnores(c: Cube, v: nat)
    requires v !in c.pos + c.neg
    ensures Indep(CubeFn(c), v)
  {
    forall a: Asg, b: bool
      ensures Assign(a, v, b) in CubeFn(c) <==> a in CubeFn(c)
    {
      forall x: nat | x in c.pos + c.neg
        ensures x in Assign(a, v, b) <==> x in a
      {
        AssignOther(a, v, b, x);
      }
    }
  }

  /** One cofactor's product p, as it enters the cover: freed of the literal where the other
      cofactor allows it. */
  ghost function Lift(v: nat, b: bool, p: Fn, other: Fn): Fn {
    if p <= other then p else Lit(v, b) * p
  }

  ghost function Branch(v: nat, b: bool, own: Fn, other: Fn): Fn {
    if b then Shannon(v, own, other) else Shannon(v, other, own)
  }

  lemma BranchAt(v: nat, b: bool, own: Fn, other: Fn, a: Asg)
    requires Indep(own, v) && Indep(other, v)
    ensures Assign(a, v, b) in Branch(v, b, own, other) <==> a in own
    ensures Assign(a, v, !b) in Branch(v, b, own, other) <==> a in other
    ensures v in Assign(a, v, b) <==> b
  {
    AssignTwice(a, v, b, b);
    AssignTwice(a, v, !b, b);
    assert Assign(a, v, b) in own <==> a in own;
    assert Assign(a, v, !b) in other <==> a in other;
  }

  /** A product that does not imply own does not imply the branch either, whatever literal of v it
      gets. */
  lemma NotBelow(v: nat, b: bool, own: Fn, other: Fn, c: Cube, c': Cube)
    requires Indep(own, v) && Indep(other, v) && v !in c.pos + c.neg && !(CubeFn(c) <= own)
    requires c' == c || c' == (if b then Cube(c.pos + {v}, c.neg) else Cube(c.pos, c.neg + {v}))
    ensures !(CubeFn(c') <= Branch(v, b, own, other))
  {
    var a: Asg :| a in CubeFn(c) && a !in own;
    BranchAt(v, b, own, other, a);
    CubeIgnores(c, v);
    assert Assign(a, v, b) in CubeFn(c);
    assert Assign(a, v, b) in CubeFn(c');
  }

  /** Lifting a prime implicant of a cofactor yields one of the function. */
  lemma LiftIsPrime(v: nat, b: bool, p: Fn, own: Fn, other: Fn)
    requires Prime(p, own) && Indep(own, v) && Indep(other, v)
    ensures Prime(Lift(v, b, p, other), Branch(v, b, own, other)) && Indep(p, v)
  {
    var f := Branch(v, b, own, other);
    var c :| PrimeCube(c, own) && p == CubeFn(c);
    PrimeIgnores(c, own, v);
    if p <= other {
      forall x | x in c.pos + c.neg
        ensures !(CubeFn(Drop(c, x)) <= f)
      {
        NotBelow(v, b, own, other, Drop(c, x), Drop(c, x));
      }
      assert PrimeCube(c, f);
    } else {
      LiftedIsPrime(v, b, c, own, other);
    }
  }

  lemma LiftedIsPrime(v: nat, b: bool, c: Cube, own: Fn, other: Fn)
    requires PrimeCube(c, own) && Indep(own, v) && Indep(other, v) && v !in c.pos + c.neg && !(CubeFn(c) <= other)
    ensures Prime(Lit(v, b) * CubeFn(c), Branch(v, b, own, other))
  {
    var f := Branch(v, b, own, other);
    var c' := if b then Cube(c.pos + {v}, c.neg) else Cube(c.pos, c.neg + {v});
    forall x | x in c'.pos + c'.neg
      ensures !(CubeFn(Drop(c', x)) <= f)
    {
      if x == v {
        assert Drop(c', v) == c;
        NotBelow(v, !b, other, own, c, c);
      } else {
        assert !(CubeFn(Drop(c, x)) <= own);
        NotBelow(v, b, own, other, Drop(c, x), Drop(c', x));
      }
    }
    assert CubeFn(c') == Lit(v, b) * CubeFn(c);
    assert PrimeCube(c', f);
  }

  /** What the then-cofactor's products contribute. */
  ghost function LiftAll(v: nat, ps: seq<Fn>, other: Fn): (r: seq<Fn>)
    ensures |r| == |ps| && forall i {:trigger r[i]} :: 0 <= i < |ps| ==> r[i] == Lift(v, true, ps[i], other)
  {
    if ps == [] then [] else LiftAll(v, ps[..|ps| - 1], other) + [Lift(v, true, ps[|ps| - 1], other)]
  }

  /** What the else-cofactor's product adds: nothing if it is there already. */
  ghost function Add(v: nat, acc: seq<Fn>, p: Fn, other: Fn): seq<Fn> {
    if !(p <= other) then acc + [Lit(v, false) * p] else if p in acc then acc else acc + [p]
  }

  ghost function AddAll(v: nat, acc: seq<Fn>, ps: seq<Fn>, other: Fn): seq<Fn> {
    if ps == [] then acc else Add(v, AddAll(v, acc, ps[..|ps| - 1], other), ps[|ps| - 1], other)
  }

  /** A member of the cover so far: without v, or with its positive literal, or the lifting of one of
      the first n products. */
  ghost predicate Member(v: nat, q: Fn, ps: seq<Fn>, n: nat) {
    && q != iset{}
    && (Indep(q, v) || q <= Lit(v, true) || exists k {:trigger ps[k]} :: 0 <= k < n && k < |ps| && q == Lit(v, false) * ps[k])
  }

  /** A product lifted with the negative literal is not in the list yet. */
  lemma LiftedIsNew(v: nat, q: Fn, ps: seq<Fn>, n: nat)
    requires n < |ps| && Distinct(ps) && Member(v, q, ps, n)
    requires forall k {:trigger ps[k]} :: 0 <= k <= n ==> Indep(ps[k], v)
    ensures q != Lit(v, false) * ps[n]
  {
    var a :| a in q;
    AssignTwice(a, v, true, true);
    assert Indep(q, v) ==> Assign(a, v, true) in q;
    forall k {:trigger ps[k]} | 0 <= k < n && Lit(v, false) * ps[k] == Lit(v, false) * ps[n]
      ensures false
    {
      LitInjective(v, ps[k], ps[n]);
    }
  }

  lemma LitInjective(v: nat, p: Fn, q: Fn)
    requires Indep(p, v) && Indep(q, v) && Lit(v, false) * p == Lit(v, false) * q
    ensures p == q
  {
    forall a: Asg
      ensures a in p <==> a in q
    {
      var a' := Assign(a, v, false);
      assert a' in p <==> a in p;
      assert a' in q <==> a in q;
      AssignTwice(a, v, false, false);
      assert a' in Lit(v, false) * p <==> a' in Lit(v, false) * q;
    }
  }

  /** The products of the then-cofactor stay distinct. */
  lemma LiftAllDistinct(v: nat, ps: seq<Fn>, own: Fn, other: Fn)
    requires PrimeCover(ps, own) && Indep(own, v) && Indep(other, v)
    ensures Distinct(LiftAll(v, ps, other))
    ensures forall q :: q in LiftAll(v, ps, other) ==> Member(v, q, [], 0) && Prime(q, Shannon(v, own, other))
  {
    var r := LiftAll(v, ps, other);
    forall i | 0 <= i < |ps|
      ensures Indep(ps[i], v) && Prime(r[i], Branch(v, true, own, other)) && Member(v, r[i], [], 0) && ps[i] != iset{}
    {
      LiftIsPrime(v, true, ps[i], own, other);
      PrimeNonEmpty(r[i], Branch(v, true, own, other));
      PrimeNonEmpty(ps[i], own);
    }
    forall i, j | 0 <= i < j < |ps|
      ensures r[i] != r[j]
    {
      LiftDiffers(v, ps[i], ps[j], other);
    }
  }

  lemma LiftDiffers(v: nat, p: Fn, q: Fn, other: Fn)
    requires Indep(p, v) && Indep(q, v) && p != q && p != iset{} && q != iset{}
    ensures Lift(v, true, p, other) != Lift(v, true, q, other)
  {
    var lp, lq := Lift(v, true, p, other), Lift(v, true, q, other);
    if lp == lq {
      forall a: Asg
        ensures a in p <==> a in q
      {
        var a1, a0 := Assign(a, v, true), Assign(a, v, false);
        assert (a1 in p <==> a in p) && (a1 in q <==> a in q);
        AssignTwice(a, v, true, true);
        assert (a1 in lp <==> a1 in p) && (a1 in lq <==> a1 in q);
      }
    }
  }

  /** Adding the else-cofactor's products keeps the list distinct and prime. */
  lemma {:induction false} AddAllOk(v: nat, acc: seq<Fn>, ps: seq<Fn>, own: Fn, other: Fn, n: nat)
    requires PrimeCover(ps, own) && Indep(own, v) && Indep(other, v) && n <= |ps|
    requires Distinct(acc) && forall q :: q in acc ==> Member(v, q, [], 0) && Prime(q, Shannon(v, other, own))
    ensures var r := AddAll(v, acc, ps[..n], other);
      Distinct(r) && forall q :: q in r ==> Member(v, q, ps, n) && Prime(q, Shannon(v, other, own))
  {
    if n > 0 {
      assert ps[..n][..n - 1] == ps[..n - 1];
      AddAllOk(v, acc, ps, own, other, n - 1);
      AddOk(v, AddAll(v, acc, ps[..n - 1], other), ps, own, other, n - 1);
    }
  }

  lemma AddOk(v: nat, r: seq<Fn>, ps: seq<Fn>, own: Fn, other: Fn, n: nat)
    requires PrimeCover(ps, own) && Indep(own, v) && Indep(other, v) && n < |ps|
    requires Distinct(r) && forall q :: q in r ==> Member(v, q, ps, n) && Prime(q, Shannon(v, other, own))
    ensures var r' := Add(v, r, ps[n], other);
      Distinct(r') && forall q :: q in r' ==> Member(v, q, ps, n + 1) && Prime(q, Shannon(v, other, own))
  {
    var p, lifted := ps[n], Lift(v, false, ps[n], other);
    LiftedMember(v, ps, own, other, n);
    forall q | q in r
      ensures Member(v, q, ps, n + 1) && (!(p <= other) ==> q != lifted)
    {
      MemberMore(v, q, ps, n);
      if !(p <= other) {
        LiftedIsNew(v, q, ps, n);
      }
    }
    hide Member, Prime, PrimeCover, Shannon, Lit, Indep;
    Appended(r, lifted);
    assert Add(v, r, p, other) == if p <= other && p in r then r else r + [lifted];
  }

  lemma Appended(r: seq<Fn>, x: Fn)
    ensures Distinct(r) && x !in r ==> Distinct(r + [x])
    ensures forall q :: q in r + [x] <==> q in r || q == x
  {
  }

  lemma MemberMore(v: nat, q: Fn, ps: seq<Fn>, n: nat)
    requires Member(v, q, ps, n)
    ensures Member(v, q, ps, n + 1)
  {
  }

  lemma LiftedMember(v: nat, ps: seq<Fn>, own: Fn, other: Fn, n: nat)
    requires PrimeCover(ps, own) && Indep(own, v) && Indep(other, v) && n < |ps|
    ensures var lifted := Lift(v, false, ps[n], other);
      Member(v, lifted, ps, n + 1) && Prime(lifted, Shannon(v, other, own))
    ensures forall k {:trigger ps[k]} :: 0 <= k <= n ==> Indep(ps[k], v)
  {
    forall k {:trigger ps[k]} | 0 <= k <= n
      ensures Indep(ps[k], v)
    {
      LiftIsPrime(v, false, ps[k], own, other);
    }
    LiftIsPrime(v, false, ps[n], own, other);
    PrimeNonEmpty(Lift(v, false, ps[n], other), Shannon(v, other, own));
  }

  /** What has been added is there, and what was there stays. */
  lemma {:induction false} AddAllHas(v: nat, acc: seq<Fn>, ps: seq<Fn>, other: Fn)
    ensures forall q :: q in acc ==> q in AddAll(v, acc, ps, other)
    ensures forall k {:trigger ps[k]} :: 0 <= k < |ps| ==> Lift(v, false, ps[k], other) in AddAll(v, acc, ps, other)
  {
    if ps != [] {
      var rest := ps[..|ps| - 1];
      AddAllHas(v, acc, rest, other);
      forall k | 0 <= k < |ps|
        ensures Lift(v, false, ps[k], other) in AddAll(v, acc, ps, other)
      {
        if k < |ps| - 1 {
          assert rest[k] == ps[k];
          assert Lift(v, false, rest[k], other) in AddAll(v, acc, rest, other);
        }
      }
    }
  }

  lemma InSum(ps: seq<Fn>, p: Fn, a: Asg)
    requires p in ps && a in p
    ensures a in Sum(ps)
  {
  }

  /** prime_implicants: from covers of the cofactors to a cover of the function. */
  lemma Combined(v: nat, T: Fn, ts: seq<Fn>, E: Fn, es: seq<Fn>)
    requires PrimeCover(ts, T) && PrimeCover(es, E) && Indep(T, v) && Indep(E, v)
    ensures PrimeCover(AddAll(v, LiftAll(v, ts, E), es, T), Shannon(v, T, E))
  {
    var f, acc := Shannon(v, T, E), LiftAll(v, ts, E);
    var r := AddAll(v, acc, es, T);
    LiftAllDistinct(v, ts, T, E);
    AddAllOk(v, acc, es, E, T, |es|);
    assert es[..|es|] == es;
    AddAllHas(v, acc, es, T);
    forall a: Asg
      ensures a in Sum(r) <==> a in f
    {
      if a in f {
        Covered(v, T, ts, E, es, a);
      }
      if a in Sum(r) {
        var i :| 0 <= i < |r| && a in r[i];
        assert r[i] in r;
        PrimeNonEmpty(r[i], f);
      }
    }
    forall i | 0 <= i < |r|
      ensures Prime(r[i], f)
    {
      assert r[i] in r;
    }
  }

  lemma Covered(v: nat, T: Fn, ts: seq<Fn>, E: Fn, es: seq<Fn>, a: Asg)
    requires Sum(ts) == T && Sum(es) == E && a in Shannon(v, T, E)
    ensures a in Sum(AddAll(v, LiftAll(v, ts, E), es, T))
  {
    var acc := LiftAll(v, ts, E);
    var r := AddAll(v, acc, es, T);
    AddAllHas(v, acc, es, T);
    if v in a {
      assert a in Sum(ts);
      var i :| 0 <= i < |ts| && a in ts[i];
      assert acc[i] in acc;
      InSum(r, acc[i], a);
    } else {
      assert a in Sum(es);
      var k :| 0 <= k < |es| && a in es[k];
      InSum(r, Lift(v, false, es[k], T), a);
    }
  }

  /** The covers of the simple cases. */
  lemma ConstantCover()
    ensures PrimeCover([], iset{}) && PrimeCover([True()], True())
  {
    assert PrimeCube(Cube({}, {}), True());
    assert CubeFn(Cube({}, {})) == True();
    assert [True()][0] == True();
    forall a: Asg
      ensures a in Sum([True()])
    {
      InSum([True()], True(), a);
    }
  }

  lemma LiteralCover(v: nat, b: bool)
    ensures PrimeCover([Lit(v, b)], Lit(v, b))
  {
    var f := Lit(v, b);
    var c := if b then Cube({v}, {}) else Cube({}, {v});
    assert CubeFn(c) == f;
    assert Drop(c, v) == Cube({}, {});
    var a: Asg := if b then {} else {v};
    assert a in CubeFn(Cube({}, {})) && a !in f;
    assert PrimeCube(c, f);
    assert [f][0] == f;
    forall a: Asg
      ensures a in Sum([f]) <==> a in f
    {
      if a in f {
        InSum([f], f, a);
      }
    }
  }

  /** The state of the pruning loop after k members of ps have been looked at: some of those are
      empty now. */
  ghost predicate Pruned(ps: seq<Fn>, cur: seq<Fn>, k: nat, f: Fn) {
    && k <= |ps| == |cur| && Sum(cur) == f
    && (forall i {:trigger cur[i]} :: 0 <= i < |ps| ==> cur[i] == ps[i] || (i < k && cur[i] == iset{}))
    && (forall i {:trigger cur[i]} :: 0 <= i < k && cur[i] != iset{} ==> SumExcept(cur, cur[i]) != f)
  }

  /** The members that are left of the first k. */
  ghost function Left(cur: seq<Fn>, k: nat): seq<Fn>
    requires k <= |cur|
  {
    if k == 0 then [] else if cur[k - 1] == iset{} then Left(cur, k - 1) else Left(cur, k - 1) + [cur[k - 1]]
  }

  lemma ExceptSmaller(cur: seq<Fn>, k: nat, p: Fn, f: Fn)
    requires k < |cur| && Sum(cur) == f && p != iset{} && SumExcept(cur, p) != f
    ensures SumExcept(cur[k := iset{}], p) != f
  {
    var cur' := cur[k := iset{}];
    forall a: Asg | a in SumExcept(cur', p)
      ensures a in SumExcept(cur, p) && a in f
    {
      var i :| 0 <= i < |cur'| && cur'[i] != p && a in cur'[i];
      assert cur[i] == cur'[i];
      assert a in Sum(cur);
    }
    assert SumExcept(cur, p) <= Sum(cur);
  }

  /** The step of the pruning loop. */
  lemma PruneStep(ps: seq<Fn>, cur: seq<Fn>, k: nat, f: Fn)
    requires Pruned(ps, cur, k, f) && k < |ps| && ps[k] != iset{} && Distinct(ps)
    ensures SumExcept(cur, cur[k]) == f ==> Pruned(ps, cur[k := iset{}], k + 1, f)
    ensures SumExcept(cur, cur[k]) != f ==> Pruned(ps, cur, k + 1, f)
    ensures cur[k] == ps[k]
  {
    if SumExcept(cur, cur[k]) == f {
      var cur' := cur[k := iset{}];
      ExceptIsWithout(ps, cur, k, f);
      forall i {:trigger cur'[i]} | 0 <= i < k + 1 && cur'[i] != iset{}
        ensures SumExcept(cur', cur'[i]) != f
      {
        assert cur[i] == cur'[i];
        ExceptSmaller(cur, k, cur[i], f);
      }
    }
  }

  /** As the members are distinct, leaving out those equal to one is leaving out that one. */
  lemma ExceptIsWithout(ps: seq<Fn>, cur: seq<Fn>, k: nat, f: Fn)
    requires Pruned(ps, cur, k, f) && k < |ps| && ps[k] != iset{} && Distinct(ps)
    ensures Sum(cur[k := iset{}]) == SumExcept(cur, cur[k])
  {
    var cur' := cur[k := iset{}];
    forall a: Asg
      ensures a in Sum(cur') <==> a in SumExcept(cur, cur[k])
    {
      if a in Sum(cur') {
        var i :| 0 <= i < |cur'| && a in cur'[i];
        assert cur[i] == cur'[i] && cur[k] == ps[k] && i != k;
        assert cur[i] != cur[k];
      }
      if a in SumExcept(cur, cur[k]) {
        var i :| 0 <= i < |cur| && cur[i] != cur[k] && a in cur[i];
        assert cur'[i] == cur[i];
      }
    }
  }

  lemma {:induction false} LeftMembers(cur: seq<Fn>, k: nat, q: Fn)
    requires k <= |cur|
    ensures q in Left(cur, k) <==> q != iset{} && q in cur[..k]
  {
    if k > 0 {
      LeftMembers(cur, k - 1, q);
      assert cur[..k] == cur[..k - 1] + [cur[k - 1]];
    }
  }

  lemma {:induction false} LeftDistinct(ps: seq<Fn>, cur: seq<Fn>, k: nat)
    requires k <= |cur| == |ps| && Distinct(ps)
    requires forall i {:trigger cur[i]} :: 0 <= i < |ps| ==> cur[i] == ps[i] || cur[i] == iset{}
    ensures Distinct(Left(cur, k))
  {
    if k > 0 {
      LeftDistinct(ps, cur, k - 1);
      LeftMembers(cur, k - 1, cur[k - 1]);
      forall i | 0 <= i < k - 1 && cur[k - 1] != iset{}
        ensures cur[i] != cur[k - 1]
      {
        assert ps[i] != ps[k - 1];
      }
    }
  }

  /** What is left at the end of the pruning: a cover by primes without a superfluous member. */
  lemma PruneDone(ps: seq<Fn>, cur: seq<Fn>, f: Fn)
    requires PrimeCover(ps, f) && Pruned(ps, cur, |ps|, f)
    ensures PrimeCover(Left(cur, |cur|), f) && Irredundant(Left(cur, |cur|), f)
  {
    var r := Left(cur, |cur|);
    LeftDistinct(ps, cur, |cur|);
    assert cur[..|cur|] == cur;
    forall i | 0 <= i < |r|
      ensures Prime(r[i], f) && SumExcept(r, r[i]) != f
    {
      LeftMembers(cur, |cur|, r[i]);
      assert r[i] in r;
      var k :| 0 <= k < |cur| && cur[k] == r[i];
      assert cur[k] == ps[k];
      SameSums(cur, r[i]);
    }
    SameSums(cur, iset{});
    forall a: Asg
      ensures a in Sum(r) <==> a in f
    {
      assert a in SumExcept(r, iset{}) <==> a in SumExcept(cur, iset{});
    }
  }

  lemma SameSums(cur: seq<Fn>, p: Fn)
    ensures SumExcept(Left(cur, |cur|), p) == SumExcept(cur, p)
  {
    var r := Left(cur, |cur|);
    assert cur[..|cur|] == cur;
    forall a: Asg
      ensures a in SumExcept(r, p) <==> a in SumExcept(cur, p)
    {
      if a in SumExcept(r, p) {
        var i :| 0 <= i < |r| && r[i] != p && a in r[i];
        LeftMembers(cur, |cur|, r[i]);
        var k :| 0 <= k < |cur| && cur[k] == r[i];
      }
      if a in SumExcept(cur, p) {
        var k :| 0 <= k < |cur| && cur[k] != p && a in cur[k];
        LeftMembers(cur, |cur|, cur[k]);
        var i :| 0 <= i < |r| && r[i] == cur[k];
      }
    }
  }
}
