/** What a set of held references supports: the nodes reachable from them. Operations that give up
    other references leave all of it as it is. */
module Support {
  import opened Graph
  import opened RefCount
  import opened State
  import opened Tables
  import opened Traverse

  /** e is constant or reachable from a reference in base. */
  ghost predicate Supported(g: Nodes, ranks: seq<nat>, base: multiset<nat>, e: Edge)
    requires Shape(g, ranks)
  {
    e.node == 0 || exists h: nat {:trigger base[h]} ::
      base[h] > 0 && In(g, Edge(h, false)) && e.node in Reach(g, ranks, Edge(h, false))
  }

  lemma {:induction false} ReachIn(g: Nodes, ranks: seq<nat>, v: Edge, n: nat)
    requires Shape(g, ranks) && In(g, v) && n in Reach(g, ranks, v)
    ensures n == 0 || n in g
    decreases TERMID - Rank(g, ranks, v)
  {
    if v.node in g && n != v.node {
      LinkRanks(g, ranks, v);
      if n in Reach(g, ranks, g[v.node].thn) {
        ReachIn(g, ranks, g[v.node].thn, n);
      } else {
        ReachIn(g, ranks, g[v.node].els, n);
      }
    }
  }

  /** A held reference keeps alive all that is reachable from it. */
  lemma {:induction false} ReachAlive(s: Table, ranks: seq<nat>, v: Edge, n: nat)
    requires TableOk(s, ranks) && Alive(s.g, s.refs, v) && n in Reach(s.g, ranks, v)
    ensures Alive(s.g, s.refs, Edge(n, false))
    decreases TERMID - Rank(s.g, ranks, v)
  {
    if v.node in s.g && n != v.node {
      LinkRanks(s.g, ranks, v);
      ChildCounted(s.g, s.refs, s.ext, Live(s.g, s.refs), v.node);
      if n in Reach(s.g, ranks, s.g[v.node].thn) {
        ReachAlive(s, ranks, s.g[v.node].thn, n);
      } else {
        ReachAlive(s, ranks, s.g[v.node].els, n);
      }
    }
  }

  lemma SupportedAlive(s: Table, ranks: seq<nat>, base: multiset<nat>, e: Edge)
    requires TableOk(s, ranks) && base <= s.ext && Supported(s.g, ranks, base, e)
    ensures Alive(s.g, s.refs, e) && In(s.g, e)
  {
    if e.node != 0 {
      var h: nat :| base[h] > 0 && In(s.g, Edge(h, false)) && e.node in Reach(s.g, ranks, Edge(h, false));
      assert s.ext[h] > 0;
      HeldAlive(s, ranks, h);
      ReachAlive(s, ranks, Edge(h, false), e.node);
    }
  }

  lemma SupportedHeld(g: Nodes, ranks: seq<nat>, base: multiset<nat>, e: Edge)
    requires Shape(g, ranks) && base[e.node] > 0 && In(g, e)
    ensures Supported(g, ranks, base, e)
  {
    ReachSelf(g, ranks, Edge(e.node, false));
  }

  lemma SupportedMore(g: Nodes, ranks: seq<nat>, base: multiset<nat>, more: multiset<nat>, e: Edge)
    requires Shape(g, ranks) && Supported(g, ranks, base, e)
    ensures Supported(g, ranks, base + more, e)
  {
    if e.node != 0 {
      var h: nat :| base[h] > 0 && In(g, Edge(h, false)) && e.node in Reach(g, ranks, Edge(h, false));
      assert (base + more)[h] > 0;
    }
  }

  lemma SupportedCofactors(g: Nodes, ranks: seq<nat>, base: multiset<nat>, e: Edge)
    requires Shape(g, ranks) && Supported(g, ranks, base, e)
    ensures Supported(g, ranks, base, CofPos(g, e)) && Supported(g, ranks, base, CofNeg(g, e))
  {
    if e.node in g {
      var h: nat :| base[h] > 0 && In(g, Edge(h, false)) && e.node in Reach(g, ranks, Edge(h, false));
      LinkRanks(g, ranks, e);
      ReachClosed(g, ranks, Edge(h, false), e);
      ReachSplit(g, ranks, e);
      ReachSelf(g, ranks, g[e.node].thn);
      ReachSelf(g, ranks, g[e.node].els);
    }
  }

  /** Everything base supports is in t what it is in s. */
  ghost predicate Keeps(s: Table, t: Table, ranks: seq<nat>, base: multiset<nat>)
    requires Shape(s.g, ranks)
  {
    forall n: nat {:trigger Supported(s.g, ranks, base, Edge(n, false))} ::
      Supported(s.g, ranks, base, Edge(n, false)) && n in s.g ==>
        n in t.g && t.g[n] == s.g[n] && n in s.den && n in t.den && t.den[n] == s.den[n]
  }

  lemma ShapeOf(s: Table, ranks: seq<nat>)
    requires TableOk(s, ranks)
    ensures Shape(s.g, ranks)
  {
  }

  lemma KeptKeeps(s: Table, t: Table, ranks: seq<nat>, base: multiset<nat>)
    requires TableOk(s, ranks) && Kept(s, t) && base <= s.ext
    ensures Keeps(s, t, ranks, base)
  {
    forall n: nat | Supported(s.g, ranks, base, Edge(n, false)) && n in s.g
      ensures n in t.g && t.g[n] == s.g[n] && n in s.den && n in t.den && t.den[n] == s.den[n]
    {
      SupportedAlive(s, ranks, base, Edge(n, false));
      assert Count(s.refs, n) > 0;
    }
  }

  lemma KeepsFree(s: Table, t: Table, u: Table, ranks: seq<nat>, base: multiset<nat>)
    requires Shape(s.g, ranks) && Keeps(s, t, ranks, base) && u.g == t.g && u.den == t.den
    ensures Keeps(s, u, ranks, base)
  {
  }

  lemma KeepsRefl(s: Table, ranks: seq<nat>, base: multiset<nat>)
    requires TableOk(s, ranks)
    ensures Keeps(s, s, ranks, base)
  {
  }

  lemma {:induction false} ReachSame(g: Nodes, g': Nodes, ranks: seq<nat>, v: Edge)
    requires Shape(g, ranks) && Shape(g', ranks) && In(g, v)
    requires forall n {:trigger n in Reach(g, ranks, v)} :: n in Reach(g, ranks, v) && n in g ==> n in g' && g'[n] == g[n]
    ensures In(g', v) && Reach(g', ranks, v) == Reach(g, ranks, v)
    decreases TERMID - Rank(g, ranks, v)
  {
    ReachSelf(g, ranks, v);
    if v.node in g {
      LinkRanks(g, ranks, v);
      LinkRanks(g', ranks, v);
      ReachSame(g, g', ranks, g[v.node].thn);
      ReachSame(g, g', ranks, g[v.node].els);
    }
  }

  /** What is supported stays supported, with its function, rank and cofactors. */
  lemma SupportedKept(s: Table, t: Table, ranks: seq<nat>, base: multiset<nat>, e: Edge)
    requires TableOk(s, ranks) && TableOk(t, ranks) && Keeps(s, t, ranks, base) && Supported(s.g, ranks, base, e)
    ensures Supported(t.g, ranks, base, e) && Sem(t.den, e) == Sem(s.den, e)
    ensures Rank(t.g, ranks, e) == Rank(s.g, ranks, e)
    ensures CofPos(t.g, e) == CofPos(s.g, e) && CofNeg(t.g, e) == CofNeg(s.g, e)
    ensures e.node in s.g ==> e.node in t.g && t.g[e.node] == s.g[e.node]
  {
    CoreKeys(s, ranks);
    CoreKeys(t, ranks);
    if e.node != 0 {
      var h: nat :| base[h] > 0 && In(s.g, Edge(h, false)) && e.node in Reach(s.g, ranks, Edge(h, false));
      var v := Edge(h, false);
      ReachIn(s.g, ranks, v, e.node);
      forall n | n in Reach(s.g, ranks, v) && n in s.g
        ensures n in t.g && t.g[n] == s.g[n]
      {
        assert Supported(s.g, ranks, base, Edge(n, false));
      }
      assert Supported(s.g, ranks, base, Edge(e.node, false));
      ReachSame(s.g, t.g, ranks, v);
    }
  }

  lemma KeepsTrans(s: Table, t: Table, u: Table, ranks: seq<nat>, base: multiset<nat>)
    requires TableOk(s, ranks) && TableOk(t, ranks) && Keeps(s, t, ranks, base) && Keeps(t, u, ranks, base)
    ensures Keeps(s, u, ranks, base)
  {
    forall n: nat | Supported(s.g, ranks, base, Edge(n, false)) && n in s.g
      ensures n in u.g && u.g[n] == s.g[n] && n in s.den && n in u.den && u.den[n] == s.den[n]
    {
      SupportedKept(s, t, ranks, base, Edge(n, false));
    }
  }

  lemma KeepsLess(s: Table, t: Table, ranks: seq<nat>, base: multiset<nat>, more: multiset<nat>)
    requires Shape(s.g, ranks) && Keeps(s, t, ranks, base + more)
    ensures Keeps(s, t, ranks, base)
  {
    forall n: nat | Supported(s.g, ranks, base, Edge(n, false)) && n in s.g
      ensures n in t.g && t.g[n] == s.g[n] && n in s.den && n in t.den && t.den[n] == s.den[n]
    {
      SupportedMore(s.g, ranks, base, more, Edge(n, false));
    }
  }
}
