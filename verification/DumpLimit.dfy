/** How large a vector can be dumped and restored: exactly up to 2^22 - 3 internal nodes. */
module DumpLimit {
  import opened Sets
  import opened Functions
  import opened Graph
  import opened State
  import opened Expressions
  import opened Traverse
  import opened DumpFormat
  import opened ConstrainOps
  import F = FactorVec
  import O = DepthFirst
  import D = Dump

  // ---- inverting an input

  function Other(a: Asg, v: nat): Asg {
    if v in a then a - {v} else a + {v}
  }

  /** bdd_invert_input_top, for the variable v that is on top when it is called; constants stay. */
  ghost function Flip(f: Fn, v: nat): Fn {
    iset a: Asg | Other(a, v) in f
  }

  lemma OtherTwice(a: Asg, v: nat)
    ensures Other(Other(a, v), v) == a
  {
  }

  lemma FlipTwice(f: Fn, v: nat)
    ensures Flip(Flip(f, v), v) == f
  {
    forall a: Asg
      ensures a in Flip(Flip(f, v), v) <==> a in f
    {
      OtherTwice(a, v);
    }
  }

  lemma FlipNot(f: Fn, v: nat)
    ensures Flip(Not(f), v) == Not(Flip(f, v))
  {
  }

  lemma OtherAssign(a: Asg, x: nat, b: bool, v: nat)
    ensures x != v ==> Other(Assign(a, x, b), v) == Assign(Other(a, v), x, b)
    ensures Other(Assign(a, v, b), v) == Assign(a, v, !b) == Assign(Other(a, v), v, !b)
  {
  }

  lemma FlipIndep(f: Fn, v: nat, x: nat)
    requires Indep(f, x)
    ensures Indep(Flip(f, v), x)
  {
    forall a: Asg, b: bool
      ensures Assign(a, x, b) in Flip(f, v) <==> a in Flip(f, v)
    {
      OtherAssign(a, x, b, v);
      var c := if x == v then !b else b;
      assert Assign(Other(a, v), x, c) in f <==> Other(a, v) in f;
    }
  }

  lemma FlipIgnored(f: Fn, v: nat)
    requires Indep(f, v)
    ensures Flip(f, v) == f
  {
    forall a: Asg
      ensures Other(a, v) in f <==> a in f
    {
      assert Other(a, v) == Assign(a, v, v !in a);
      assert Assign(a, v, v !in a) in f <==> a in f;
    }
  }

  /** Flipping in the branches, or exchanging them. */
  lemma FlipShannon(x: nat, t: Fn, e: Fn, v: nat)
    requires Indep(t, x) && Indep(e, x)
    ensures x != v ==> Flip(Shannon(x, t, e), v) == Shannon(x, Flip(t, v), Flip(e, v))
    ensures x == v ==> Flip(Shannon(x, t, e), v) == Shannon(x, e, t)
  {
    if x == v {
      FlipIgnored(t, v);
      FlipIgnored(e, v);
      forall a: Asg
        ensures a in Flip(Shannon(x, t, e), v) <==> a in Shannon(x, e, t)
      {
        assert Other(a, v) in t <==> a in Flip(t, v);
        assert Other(a, v) in e <==> a in Flip(e, v);
      }
    }
  }

  // ---- a flipped function has as many nodes

  /** Edge a is edge b with input v inverted. */
  ghost predicate Mirrors(den: Den, a: Edge, b: Edge, v: nat) {
    Sem(den, a) == Flip(Sem(den, b), v)
  }

  /** Node m stands for node n with input v inverted, in some polarity. */
  ghost predicate Image(den: Den, n: nat, m: nat, neg: bool, v: nat) {
    Mirrors(den, Edge(n, false), Edge(m, neg), v)
  }

  lemma MirrorsBack(den: Den, a: Edge, b: Edge, v: nat)
    requires Mirrors(den, a, b, v)
    ensures Mirrors(den, b, a, v) && Mirrors(den, Compl(a), Compl(b), v)
  {
    FlipTwice(Sem(den, b), v);
    FlipNot(Sem(den, b), v);
    SemCompl(den, a);
    SemCompl(den, b);
  }

  lemma MirrorNotBelow(g: Nodes, ranks: seq<nat>, den: Den, a: Edge, b: Edge, v: nat)
    requires WF(g, ranks, den) && In(g, b) && a.node in g && Mirrors(den, a, b, v)
    ensures Rank(g, ranks, b) <= Rank(g, ranks, a) && b.node in g
  {
    assert NodeOk(g, ranks, a.node);
    var x := g[a.node].varid;
    TopVariableMatters(g, ranks, den, a);
    if Indep(Sem(den, b), x) {
      FlipIndep(Sem(den, b), v, x);
    }
    if Rank(g, ranks, a) < Rank(g, ranks, b) {
      SemIndep(g, ranks, den, b, x);
    }
    assert 0 !in g;
  }

  /** Mirrored edges test the same variable, and their branches are mirrored, crosswise if it is v. */
  lemma MirrorKids(g: Nodes, ranks: seq<nat>, den: Den, a: Edge, b: Edge, v: nat)
    requires WF(g, ranks, den) && In(g, b) && a.node in g && Mirrors(den, a, b, v)
    ensures b.node in g && g[b.node].varid == g[a.node].varid
    ensures var p, n := CofPos(g, a), CofNeg(g, a);
      if g[a.node].varid == v then Mirrors(den, p, CofNeg(g, b), v) && Mirrors(den, n, CofPos(g, b), v)
      else Mirrors(den, p, CofPos(g, b), v) && Mirrors(den, n, CofNeg(g, b), v)
  {
    MirrorNotBelow(g, ranks, den, a, b, v);
    MirrorsBack(den, a, b, v);
    MirrorNotBelow(g, ranks, den, b, a, v);
    SameVariable(g, ranks, a, b);
    var x := g[a.node].varid;
    CofactorsIndep(g, ranks, den, a);
    CofactorsIndep(g, ranks, den, b);
    SemExpand(g, den, a);
    SemExpand(g, den, b);
    hide WF, Indep, Shannon, Flip;
    var ap, an, bp, bn := Sem(den, CofPos(g, a)), Sem(den, CofNeg(g, a)), Sem(den, CofPos(g, b)), Sem(den, CofNeg(g, b));
    FlipShannon(x, bp, bn, v);
    if x == v {
      ShannonInjective(x, ap, an, bn, bp);
      FlipIgnored(bp, v);
      FlipIgnored(bn, v);
    } else {
      FlipIndep(bp, v, x);
      FlipIndep(bn, v, x);
      ShannonInjective(x, ap, an, Flip(bp, v), Flip(bn, v));
    }
  }

  lemma SameVariable(g: Nodes, ranks: seq<nat>, a: Edge, b: Edge)
    requires Shape(g, ranks) && a.node in g && b.node in g && Rank(g, ranks, a) == Rank(g, ranks, b)
    ensures g[a.node].varid == g[b.node].varid
  {
    assert NodeOk(g, ranks, a.node) && NodeOk(g, ranks, b.node);
  }

  lemma KidReach(g: Nodes, ranks: seq<nat>, b: Edge)
    requires Shape(g, ranks) && b.node in g
    ensures In(g, CofPos(g, b)) && In(g, CofNeg(g, b))
    ensures Reach(g, ranks, CofPos(g, b)) == Reach(g, ranks, g[b.node].thn)
    ensures Reach(g, ranks, CofNeg(g, b)) == Reach(g, ranks, g[b.node].els)
    ensures Reach(g, ranks, b) == {b.node} + Reach(g, ranks, CofPos(g, b)) + Reach(g, ranks, CofNeg(g, b))
    ensures Rank(g, ranks, b) < Rank(g, ranks, CofPos(g, b)) <= TERMID && Rank(g, ranks, b) < Rank(g, ranks, CofNeg(g, b)) <= TERMID
  {
    LinkRanks(g, ranks, b);
    ReachSplit(g, ranks, b);
    SameReach(g, ranks, g[b.node].thn);
    SameReach(g, ranks, g[b.node].els);
  }

  lemma SameReach(g: Nodes, ranks: seq<nat>, e: Edge)
    requires Shape(g, ranks) && In(g, e)
    ensures In(g, Compl(e)) && Reach(g, ranks, Compl(e)) == Reach(g, ranks, e) && Rank(g, ranks, Compl(e)) == Rank(g, ranks, e)
  {
  }

  /** Every node of a has an image in b. */
  lemma {:induction false} Imaged(g: Nodes, ranks: seq<nat>, den: Den, a: Edge, b: Edge, v: nat, n: nat) returns (m: nat, neg: bool)
    requires WF(g, ranks, den) && In(g, a) && In(g, b) && Mirrors(den, a, b, v) && n in Reach(g, ranks, a) && n != 0
    ensures m in Reach(g, ranks, b) && m != 0 && Image(den, n, m, neg, v)
    decreases TERMID - Rank(g, ranks, a)
  {
    hide WF, Mirrors, Rank, Reach;
    if n == a.node {
      m, neg := RootImage(g, ranks, den, a, b, v);
    } else {
      InnerNode(g, ranks, den, a, n);
      MirrorKids(g, ranks, den, a, b, v);
      KidReach(g, ranks, a);
      KidReach(g, ranks, b);
      var crossed := g[a.node].varid == v;
      if n in Reach(g, ranks, CofPos(g, a)) {
        m, neg := Imaged(g, ranks, den, CofPos(g, a), if crossed then CofNeg(g, b) else CofPos(g, b), v, n);
      } else {
        m, neg := Imaged(g, ranks, den, CofNeg(g, a), if crossed then CofPos(g, b) else CofNeg(g, b), v, n);
      }
    }
  }

  lemma InnerNode(g: Nodes, ranks: seq<nat>, den: Den, a: Edge, n: nat)
    requires WF(g, ranks, den) && In(g, a) && n in Reach(g, ranks, a) && n != a.node
    ensures a.node in g && Shape(g, ranks)
  {
  }

  lemma RootImage(g: Nodes, ranks: seq<nat>, den: Den, a: Edge, b: Edge, v: nat) returns (m: nat, neg: bool)
    requires WF(g, ranks, den) && In(g, a) && In(g, b) && Mirrors(den, a, b, v) && a.node != 0
    ensures m in Reach(g, ranks, b) && m != 0 && Image(den, a.node, m, neg, v)
  {
    MirrorNotBelow(g, ranks, den, a, b, v);
    MirrorsBack(den, a, b, v);
    ReachSelf(g, ranks, b);
    m, neg := b.node, a.neg != b.neg;
    assert Edge(a.node, false) == (if a.neg then Compl(a) else a);
    assert Edge(m, neg) == (if a.neg then Compl(b) else b);
  }

  /** Different nodes have different images. */
  lemma ImageOnce(g: Nodes, ranks: seq<nat>, den: Den, n: nat, n': nat, m: nat, neg: bool, neg': bool, v: nat)
    requires WF(g, ranks, den) && n in g && n' in g && Image(den, n, m, neg, v) && Image(den, n', m, neg', v)
    ensures n == n'
  {
    FlipNot(At(den, m), v);
    NotNot(At(den, n));
    NotNot(At(den, n'));
    NotNot(Flip(At(den, m), v));
    assert Sem(den, Edge(n, false)) == Sem(den, Edge(n', neg != neg'));
    Canonical(g, ranks, den, Edge(n, false), Edge(n', neg != neg'));
  }

  ghost predicate HasImage(den: Den, n: nat, b: set<nat>, v: nat) {
    exists m, neg {:trigger Image(den, n, m, neg, v)} :: m in b && Image(den, n, m, neg, v)
  }

  lemma {:induction false} ImagesCount(g: Nodes, ranks: seq<nat>, den: Den, a: set<nat>, b: set<nat>, v: nat)
    requires WF(g, ranks, den) && a <= g.Keys
    requires forall n {:trigger n in a} :: n in a ==> HasImage(den, n, b, v)
    ensures |a| <= |b|
    decreases a
  {
    if a != {} {
      hide WF, Image;
      var n :| n in a;
      assert HasImage(den, n, b, v);
      var m, neg :| m in b && Image(den, n, m, neg, v);
      forall n' | n' in a - {n}
        ensures HasImage(den, n', b - {m}, v)
      {
        assert HasImage(den, n', b, v);
        var m', neg' :| m' in b && Image(den, n', m', neg', v);
        if m' == m {
          ImageOnce(g, ranks, den, n, n', m, neg, neg', v);
        }
      }
      ImagesCount(g, ranks, den, a - {n}, b - {m}, v);
    }
  }

  /** Inverting an input leaves the number of nodes as it is. */
  lemma MirrorSize(g: Nodes, ranks: seq<nat>, den: Den, a: Edge, b: Edge, v: nat)
    requires WF(g, ranks, den) && In(g, a) && In(g, b) && Mirrors(den, a, b, v)
    ensures |Reach(g, ranks, a) - {0}| <= |Reach(g, ranks, b) - {0}|
  {
    forall n | n in Reach(g, ranks, a) - {0}
      ensures HasImage(den, n, Reach(g, ranks, b) - {0}, v) && n in g
    {
      var m, neg := Imaged(g, ranks, den, a, b, v, n);
      ReachKnown(g, ranks, a, n);
    }
    ImagesCount(g, ranks, den, Reach(g, ranks, a) - {0}, Reach(g, ranks, b) - {0}, v);
  }

  lemma {:induction false} ReachKnown(g: Nodes, ranks: seq<nat>, a: Edge, n: nat)
    requires Shape(g, ranks) && In(g, a) && n in Reach(g, ranks, a)
    ensures n == 0 || n in g
    decreases TERMID - Rank(g, ranks, a)
  {
    if a.node in g && n != a.node {
      LinkRanks(g, ranks, a);
      if n in Reach(g, ranks, g[a.node].thn) {
        ReachKnown(g, ranks, g[a.node].thn, n);
      } else {
        ReachKnown(g, ranks, g[a.node].els, n);
      }
    }
  }

  // ---- the addresses

  /** The place in the log of the node with address j. */
  lemma {:induction false} NodeWithAddress(log: seq<Edge>, j: nat) returns (q: nat)
    requires 3 <= j < D.Internal(log) + 3
    ensures q < |log| && log[q].node != 0 && D.Internal(log[..q]) + 3 == j
    decreases |log|
  {
    var k := |log| - 1;
    if j < D.Internal(log[..k]) + 3 {
      q := NodeWithAddress(log[..k], j);
      assert log[..k][..q] == log[..q];
    } else {
      q := k;
    }
  }

  lemma OncePrefix(log: seq<Edge>, q: nat)
    requires Once(log) && q <= |log|
    ensures Once(log[..q])
  {
  }

  /** The edge with address j. */
  ghost predicate Stands(s: Table, ranks: seq<nat>, aux: map<nat, nat>, rs: seq<NodeRec>, j: nat, b: Edge)
    requires Shape(s.g, ranks) && Backward(rs)
  {
    && In(s.g, b) && j < |rs| + 3 && Sem(s.den, b) == Fns(rs)[j]
    && (b.node != 0 ==> b.node in aux && aux[b.node] == j)
    && |Reach(s.g, ranks, b) - {0}| <= j
  }

  lemma TerminalReach(s: Table, ranks: seq<nat>, b: Edge)
    requires TableOk(s, ranks) && Shape(s.g, ranks) && b.node == 0
    ensures Reach(s.g, ranks, b) - {0} == {}
  {
  }

  lemma Standing(s: Table, ranks: seq<nat>, fs: seq<Pointer>, log: seq<Edge>, aux: map<nat, nat>, rs: seq<NodeRec>, es: seq<EdgeRec>, j: nat)
    returns (b: Edge)
    requires TableOk(s, ranks) && Shape(s.g, ranks) && F.VecIn(s.g, fs) && D.Addressed(s.g, ranks, s.den, fs, log, aux, rs, es)
    requires Backward(rs) && j < |rs| + 3 && j != 2
    ensures Stands(s, ranks, aux, rs, j, b)
  {
    hide TableOk, O.PostOrdered, Once, D.AllEnd, D.EdgesFrom, F.ReachAll, Reach, NodesOf, Fns, D.Internal, D.Numbered;
    assert log[..|log|] == log;
    D.NumberedFacts(s.g, s.den, |ranks|, log, aux, rs);
    if j < 2 {
      b := if j == 0 then ZERO else ONE;
      TerminalReach(s, ranks, b);
      ConstFns(s, ranks, rs);
    } else {
      var q := NodeWithAddress(log, j);
      b := Edge(log[q].node, false);
      D.LogPrefix(log, q);
      LoggedIn(s, ranks, fs, log, q);
      NumberedAt(s, ranks, log, aux, rs, q);
      O.ReachBefore(s.g, ranks, log, q + 1, b);
      OncePrefix(log, q + 1);
      D.InternalIsCard(log[..q + 1]);
      SubsetSize(Reach(s.g, ranks, b) - {0}, NodesOf(log[..q + 1]) - {0});
    }
  }

  lemma ConstFns(s: Table, ranks: seq<nat>, rs: seq<NodeRec>)
    requires TableOk(s, ranks) && Backward(rs)
    ensures Fns(rs)[0] == Sem(s.den, ZERO) && Fns(rs)[1] == Sem(s.den, ONE)
  {
    assert 0 !in s.den;
    assert Not(True()) == iset{};
    FirstFns(rs);
  }

  lemma {:induction false} FirstFns(rs: seq<NodeRec>)
    requires Backward(rs)
    ensures Fns(rs)[0] == iset{} && Fns(rs)[1] == True()
  {
    if rs != [] {
      FirstFns(rs[..|rs| - 1]);
    }
  }

  lemma LoggedIn(s: Table, ranks: seq<nat>, fs: seq<Pointer>, log: seq<Edge>, q: nat)
    requires Shape(s.g, ranks) && F.VecIn(s.g, fs) && NodesOf(log) == F.ReachAll(s.g, ranks, fs, |fs|) && q < |log|
    ensures In(s.g, Edge(log[q].node, false))
  {
    assert log[q].node in NodesOf(log);
    AllKnown(s.g, ranks, fs, |fs|, log[q].node);
  }

  lemma {:induction false} AllKnown(g: Nodes, ranks: seq<nat>, fs: seq<Pointer>, k: nat, n: nat)
    requires Shape(g, ranks) && F.VecIn(g, fs) && k <= |fs| && n in F.ReachAll(g, ranks, fs, k)
    ensures n == 0 || n in g
  {
    if n in F.ReachAll(g, ranks, fs, k - 1) {
      AllKnown(g, ranks, fs, k - 1, n);
    } else {
      ReachKnown(g, ranks, fs[k - 1].e, n);
    }
  }

  lemma NumberedAt(s: Table, ranks: seq<nat>, log: seq<Edge>, aux: map<nat, nat>, rs: seq<NodeRec>, q: nat)
    requires D.Numbered(s.g, s.den, |ranks|, log, |log|, aux, rs) && q < |log| && log[q].node != 0
    ensures Backward(rs) && log[q].node in aux && aux[log[q].node] == D.Internal(log[..q]) + 3 < |rs| + 3
    ensures Fns(rs)[aux[log[q].node]] == Sem(s.den, Edge(log[q].node, false))
  {
    assert aux[log[q].node] == D.Internal(log[..q]) + 3;
  }

  // ---- the first element beyond the limit

  ghost function Count(g: Nodes, ranks: seq<nat>, fs: seq<Pointer>, k: nat): nat
    requires Shape(g, ranks) && F.VecIn(g, fs) && k <= |fs|
  {
    |F.ReachAll(g, ranks, fs, k) - {0}|
  }

  lemma NoneCounted(g: Nodes, ranks: seq<nat>, fs: seq<Pointer>)
    requires Shape(g, ranks) && F.VecIn(g, fs)
    ensures Count(g, ranks, fs, 0) == 0
  {
    assert F.ReachAll(g, ranks, fs, 0) - {0} == {};
  }

  ghost function Counts(g: Nodes, ranks: seq<nat>, fs: seq<Pointer>): (cs: seq<nat>)
    requires Shape(g, ranks) && F.VecIn(g, fs)
    ensures |cs| == |fs| + 1 && forall k {:trigger cs[k]} :: 0 <= k < |cs| ==> cs[k] == Count(g, ranks, fs, k)
  {
    seq(|fs| + 1, k requires 0 <= k <= |fs| => Count(g, ranks, fs, k))
  }

  lemma {:induction false} FirstAbove(cs: seq<nat>, n: nat, limit: nat) returns (k: nat)
    requires n < |cs| && cs[0] == 0 && cs[n] > limit
    ensures k < n && cs[k] <= limit < cs[k + 1]
    decreases n
  {
    if cs[n - 1] > limit {
      k := FirstAbove(cs, n - 1, limit);
    } else {
      k := n - 1;
    }
  }

  lemma FirstOver(g: Nodes, ranks: seq<nat>, fs: seq<Pointer>, limit: nat) returns (k: nat)
    requires Shape(g, ranks) && F.VecIn(g, fs) && Count(g, ranks, fs, |fs|) > limit
    ensures k < |fs| && Count(g, ranks, fs, k) <= limit < Count(g, ranks, fs, k + 1)
  {
    NoneCounted(g, ranks, fs);
    hide Count, Shape, F.VecIn;
    var cs := Counts(g, ranks, fs);
    k := FirstAbove(cs, |fs|, limit);
    assert cs[k + 1] == Count(g, ranks, fs, k + 1);
  }

  lemma {:induction false} AllClosed(g: Nodes, ranks: seq<nat>, fs: seq<Pointer>, k: nat, e: Edge)
    requires Shape(g, ranks) && F.VecIn(g, fs) && k <= |fs| && In(g, e) && e.node in F.ReachAll(g, ranks, fs, k)
    ensures Reach(g, ranks, e) <= F.ReachAll(g, ranks, fs, k)
  {
    if e.node in F.ReachAll(g, ranks, fs, k - 1) {
      AllClosed(g, ranks, fs, k - 1, e);
    } else {
      ReachClosed(g, ranks, fs[k - 1].e, e);
    }
  }

  lemma UnionCount(a: set<nat>, b: set<nat>)
    ensures |a + b - {0}| <= |a - {0}| + |b - {0}|
  {
    var x, y := a - {0}, b - {0};
    assert a + b - {0} == x + (y - x);
    SubsetSize(y - x, y);
  }

  /** An element whose node is not new adds nothing to the count. */
  lemma OldAddsNothing(g: Nodes, ranks: seq<nat>, fs: seq<Pointer>, k: nat)
    requires Shape(g, ranks) && F.VecIn(g, fs) && k < |fs|
    requires fs[k].To? ==> fs[k].e.node in F.ReachAll(g, ranks, fs, k) || fs[k].e.node == 0
    ensures Count(g, ranks, fs, k + 1) == Count(g, ranks, fs, k)
  {
    if fs[k].To? && fs[k].e.node in F.ReachAll(g, ranks, fs, k) {
      AllClosed(g, ranks, fs, k, fs[k].e);
      assert F.ReachAll(g, ranks, fs, k + 1) == F.ReachAll(g, ranks, fs, k);
    } else {
      assert F.ReachAll(g, ranks, fs, k + 1) - {0} == F.ReachAll(g, ranks, fs, k) - {0};
    }
  }

  /** The element that brings the count over the limit is new, and its graph has all the new nodes. */
  lemma OverIsNew(g: Nodes, ranks: seq<nat>, fs: seq<Pointer>, k: nat)
    requires Shape(g, ranks) && F.VecIn(g, fs) && k < |fs| && Count(g, ranks, fs, k) < Count(g, ranks, fs, k + 1)
    ensures fs[k].To? && fs[k].e.node !in F.ReachAll(g, ranks, fs, k) && fs[k].e.node != 0
    ensures Count(g, ranks, fs, k + 1) <= Count(g, ranks, fs, k) + |Reach(g, ranks, fs[k].e) - {0}|
  {
    if fs[k].To? ==> fs[k].e.node in F.ReachAll(g, ranks, fs, k) || fs[k].e.node == 0 {
      OldAddsNothing(g, ranks, fs, k);
      assert false;
    }
    UnionCount(F.ReachAll(g, ranks, fs, k), Reach(g, ranks, fs[k].e));
  }

  /** The address of a new element's node tells how many nodes there were up to it. */
  lemma NewAddress(s: Table, ranks: seq<nat>, fs: seq<Pointer>, log: seq<Edge>, aux: map<nat, nat>, rs: seq<NodeRec>, es: seq<EdgeRec>, k: nat)
    requires Shape(s.g, ranks) && F.VecIn(s.g, fs) && D.Addressed(s.g, ranks, s.den, fs, log, aux, rs, es) && |es| == |fs|
    requires k < |fs| && fs[k].To? && fs[k].e.node !in F.ReachAll(s.g, ranks, fs, k) && fs[k].e.node != 0
    ensures fs[k].e.node in aux && aux[fs[k].e.node] == Count(s.g, ranks, fs, k + 1) + 2
    ensures es[k] == EdgeRec(aux[fs[k].e.node], fs[k].e.neg, false) && aux[fs[k].e.node] < |rs| + 3
  {
    hide O.PostOrdered, Once, F.ReachAll, D.Recorded, D.Described, Shape;
    assert D.Ends(s.g, ranks, fs, log, k);
    var p: nat :| D.EndsAt(s.g, ranks, fs, log, k, p);
    NumberedAt(s, ranks, log, aux, rs, p - 1);
    D.LogPrefix(log, p - 1);
    OncePrefix(log, p);
    D.InternalIsCard(log[..p]);
    assert es[k] == EdgeRec(aux[fs[k].e.node], fs[k].e.neg, false);
  }

  // ---- what is read

  /** What bdd_restore_edge makes of a record when the places stand for fns: place 2 is BDD_X, and the
      variable on top can be any. */
  ghost predicate ReadsAs(fns: seq<Fn>, r: EdgeRec, f: Fn) {
    && r.EdgeRec? && r.id < |fns| && r.id != 2
    && (if r.inv then exists v: nat {:trigger Flip(fns[r.id], v)} :: f == NotIf(Flip(fns[r.id], v), r.neg)
        else f == NotIf(fns[r.id], r.neg))
  }

  ghost predicate ComesBack(den: Den, fns: seq<Fn>, f: Pointer, r: EdgeRec) {
    if f.Void? then r.VoidRec? else ReadsAs(fns, r, Sem(den, f.e))
  }

  /** The record of the k-th element as it is read. */
  function Element(b: seq<Byte>, nodes: nat, k: nat): EdgeRec
    requires 12 + 8 * nodes + 3 * k + 3 <= |b|
  {
    EdgeAt(b, 12 + 8 * nodes + 3 * k)
  }

  lemma ElementIs(rs: seq<NodeRec>, es: seq<EdgeRec>, vars: nat, k: nat)
    requires k < |es|
    ensures Element(File(rs, es, vars), |rs|, k) == EdgeAt(EdgeBytes(es[k]), 0)
  {
    hide EdgeBytes;
    EdgesAt(es, k);
    LastAt(Header(|rs|, |es|, vars), NodesBytes(rs), EdgesBytes(es), 3 * k, 3);
    SameThree(File(rs, es, vars), 12 + 8 * |rs| + 3 * k, EdgeBytes(es[k]));
  }

  lemma SameThree(b: seq<Byte>, i: nat, c: seq<Byte>)
    requires i + 3 <= |b| && |c| == 3 && b[i..i + 3] == c
    ensures EdgeAt(b, i) == EdgeAt(c, 0)
  {
    assert b[i] == c[0] && b[i + 1] == c[1] && b[i + 2] == c[2];
  }

  /** A record is read with an address of 22 bits; the bit for an inverted input is on only for an
      address of 24 bits or more. */
  lemma ReadAddress(id: nat, neg: bool)
    ensures var r := EdgeAt(EdgeBytes(EdgeRec(id, neg, false)), 0);
      r.EdgeRec? ==> r.id < 0x40_0000 && (r.inv ==> id >= 0x80_0000)
  {
    var b := EdgeBytes(EdgeRec(id, neg, false));
    NumberBound(b[0] % 64, b[1], b[2]);
    TopBit(id);
  }

  lemma TopBit(id: nat)
    ensures id / 0x1_0000 % 256 >= 128 ==> id >= 0x80_0000
  {
  }

  /** An element whose address does not fit is read as something else. */
  lemma NotBack(s: Table, ranks: seq<nat>, fs: seq<Pointer>, log: seq<Edge>, aux: map<nat, nat>, rs: seq<NodeRec>, es: seq<EdgeRec>, k: nat)
    requires TableOk(s, ranks) && Shape(s.g, ranks) && F.VecIn(s.g, fs) && D.Addressed(s.g, ranks, s.den, fs, log, aux, rs, es)
    requires Backward(rs) && |es| == |fs| && k < |fs| && Count(s.g, ranks, fs, k) <= D.MAX_NODES < Count(s.g, ranks, fs, k + 1)
    ensures es[k].EdgeRec? && es[k].id >= 0x40_0000
    ensures !ComesBack(s.den, Fns(rs), fs[k], EdgeAt(EdgeBytes(es[k]), 0))
  {
    hide TableOk, D.Addressed, F.ReachAll, EdgeBytes, EdgeAt, Stands, Fns;
    OverIsNew(s.g, ranks, fs, k);
    NewAddress(s, ranks, fs, log, aux, rs, es, k);
    var e := fs[k].e;
    var A := aux[e.node];
    var r := EdgeAt(EdgeBytes(es[k]), 0);
    ReadAddress(A, e.neg);
    if r.EdgeRec? && r.id != 2 {
      var b := Standing(s, ranks, fs, log, aux, rs, es, r.id);
      OtherFunction(s, ranks, aux, rs, e, r, b);
    }
  }

  /** No function of a lower address, complemented or with an input inverted, is that of e. */
  lemma OtherFunction(s: Table, ranks: seq<nat>, aux: map<nat, nat>, rs: seq<NodeRec>, e: Edge, r: EdgeRec, b: Edge)
    requires TableOk(s, ranks) && Shape(s.g, ranks) && Backward(rs) && In(s.g, e) && e.node != 0 && e.node in aux
    requires r.EdgeRec? && r.id < 0x40_0000 <= aux[e.node] && Stands(s, ranks, aux, rs, r.id, b)
    requires r.inv ==> |Reach(s.g, ranks, e) - {0}| >= 0x40_0000
    ensures !ReadsAs(Fns(rs), r, Sem(s.den, e))
  {
    hide Reach, Fns, Flip;
    var c := NegIf(b, r.neg);
    NegIfSem(s, b, r.neg);
    if Sem(s.den, e) == Sem(s.den, c) {
      Canonical(s.g, ranks, s.den, e, c);
      assert false;
    }
    forall v: nat
      ensures Sem(s.den, e) != NotIf(Flip(Fns(rs)[r.id], v), r.neg) || !r.inv
    {
      if r.inv && Sem(s.den, e) == NotIf(Flip(Fns(rs)[r.id], v), r.neg) {
        FlipNot(Sem(s.den, b), v);
        assert Mirrors(s.den, e, c, v);
        SameReach(s.g, ranks, b);
        MirrorSize(s.g, ranks, s.den, e, c, v);
        assert false;
      }
    }
  }

  lemma NegIfSem(s: Table, b: Edge, neg: bool)
    ensures Sem(s.den, NegIf(b, neg)) == NotIf(Sem(s.den, b), neg)
  {
    SemCompl(s.den, b);
  }

  lemma AllBack(den: Den, fs: seq<Pointer>, b: seq<Byte>, rs: seq<NodeRec>, es: seq<EdgeRec>, vars: nat, k: nat)
    requires D.DumpOf(den, fs, b, rs, es, vars) && |rs| <= D.MAX_NODES && vars <= TERMID && k < |fs|
    ensures ComesBack(den, Fns(rs), fs[k], EdgeAt(EdgeBytes(es[k]), 0))
  {
    D.SmallFits(den, fs, b, rs, es, vars);
    EdgeRoundIff(es[k]);
    assert D.EdgeOk(den, rs, fs[k], es[k]);
  }

  /** All elements come back. */
  ghost predicate VectorBack(den: Den, fs: seq<Pointer>, b: seq<Byte>, rs: seq<NodeRec>)
    requires Backward(rs) && 12 + 8 * |rs| + 3 * |fs| <= |b|
  {
    forall k {:trigger fs[k]} {:trigger Element(b, |rs|, k)} :: 0 <= k < |fs| ==> ComesBack(den, Fns(rs), fs[k], Element(b, |rs|, k))
  }

  /** A dumped vector comes back exactly if it has at most 2^22 - 3 internal nodes; and exactly then all
      its records fit. */
  lemma ComesBackIff(s: Table, ranks: seq<nat>, fs: seq<Pointer>, b: seq<Byte>, rs: seq<NodeRec>, es: seq<EdgeRec>,
                     log: seq<Edge>, aux: map<nat, nat>)
    requires TableOk(s, ranks) && Shape(s.g, ranks) && F.VecIn(s.g, fs)
    requires D.DumpOf(s.den, fs, b, rs, es, |ranks|) && D.Addressed(s.g, ranks, s.den, fs, log, aux, rs, es)
    requires |rs| == |F.ReachAll(s.g, ranks, fs, |fs|) - {0}|
    ensures VectorBack(s.den, fs, b, rs) <==> |F.ReachAll(s.g, ranks, fs, |fs|) - {0}| <= D.MAX_NODES
    ensures D.AllFit(rs, es) <==> |F.ReachAll(s.g, ranks, fs, |fs|) - {0}| <= D.MAX_NODES
  {
    hide TableOk, D.Addressed, F.ReachAll, EdgeBytes, EdgeAt, ComesBack, Fns;
    if |rs| <= D.MAX_NODES {
      D.SmallFits(s.den, fs, b, rs, es, |ranks|);
      forall k | 0 <= k < |fs|
        ensures ComesBack(s.den, Fns(rs), fs[k], Element(b, |rs|, k))
      {
        ElementIs(rs, es, |ranks|, k);
        AllBack(s.den, fs, b, rs, es, |ranks|, k);
      }
    } else {
      var k := FirstOver(s.g, ranks, fs, D.MAX_NODES);
      NotBack(s, ranks, fs, log, aux, rs, es, k);
      ElementIs(rs, es, |ranks|, k);
      assert !EdgeFits(es[k]);
      assert !ComesBack(s.den, Fns(rs), fs[k], Element(b, |rs|, k));
    }
  }

  /** The first address that does not fit is read as the complement of place 0, the constant 1. */
  lemma FirstLost(neg: bool, fns: seq<Fn>, f: Fn)
    requires |fns| > 0 && fns[0] == iset{}
    ensures var r := EdgeAt(EdgeBytes(EdgeRec(0x40_0000, neg, false)), 0);
      r == EdgeRec(0, true, false) && (ReadsAs(fns, r, f) <==> f == True())
  {
    FirstBytes(neg);
    hide EdgeAt, EdgeBytes;
    EdgeRoundIff(EdgeRec(0, true, false));
    assert Not(iset{}) == True();
  }

  lemma FirstBytes(neg: bool)
    ensures EdgeBytes(EdgeRec(0x40_0000, neg, false)) == [64, 0, 0] == EdgeBytes(EdgeRec(0, true, false))
  {
    var n := 0x40_0000;
    assert n / 0x1_0000 % 256 == 64 && n / 256 % 256 == 0 && n % 256 == 0;
  }
}
