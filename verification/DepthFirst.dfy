/** The order in which the traversals visit nodes, told without marks. */
module DepthFirst {
  import opened Graph
  import opened ConstrainOps
  import opened Traverse

  /** Depth first, the THEN side before the ELSE side, a node before or, with post, after what is first
      met below it; nodes of done are left out. */
  function Order(g: Nodes, ranks: seq<nat>, v: Edge, done: set<nat>, post: bool): seq<Edge>
    requires Shape(g, ranks) && In(g, v)
    decreases TERMID - Rank(g, ranks, v)
  {
    if v.node in done then []
    else if v.node !in g then [v]
    else
      LinkRanks(g, ranks, v);
      var a := Order(g, ranks, g[v.node].thn, done + {v.node}, post);
      var b := Order(g, ranks, g[v.node].els, done + {v.node} + NodesOf(a), post);
      if post then a + b + [v] else [v] + a + b
  }

  /** One child. */
  lemma KidOrder(g: Nodes, ranks: seq<nat>, area: set<nat>, m0: set<nat>, c: bool, v: Edge, T: Edge, t: Trace, done: set<nat>, post: bool)
    requires Shape(g, ranks) && v.node in g && v.node in done && (T == g[v.node].thn || T == g[v.node].els)
    requires In(g, T) && Rank(g, ranks, T) > Rank(g, ranks, v) && Reach(g, ranks, T) <= area
    requires Settled(g, ranks, done, Rank(g, ranks, v) + 1) && Marked(area, m0, c, done, t.mark)
    ensures var t', a := if NotMarked(t.mark, T, v) then Visit(g, ranks, T, t, post) else t, Order(g, ranks, T, done, post);
      && t'.log == t.log + a && Marked(area, m0, c, done + Reach(g, ranks, T), t'.mark)
      && NodesOf(a) == Reach(g, ranks, T) - done
    decreases TERMID - Rank(g, ranks, v), 0
  {
    ReachSelf(g, ranks, T);
    MarkedTest(area, m0, c, done, t.mark, T, v);
    RankBound(g, ranks, T);
    if T.node !in done {
      SettledHigher(g, ranks, done, Rank(g, ranks, v) + 1, Rank(g, ranks, T));
      VisitOrder(g, ranks, area, m0, c, T, t, done, post);
    } else {
      LogNone();
      CompleteOf(g, ranks, done, Rank(g, ranks, v) + 1, T);
      assert done + Reach(g, ranks, T) == done;
    }
  }

  /** A visit logs the nodes in depth-first order. */
  lemma {:induction false} VisitOrder(g: Nodes, ranks: seq<nat>, area: set<nat>, m0: set<nat>, c: bool, v: Edge, t: Trace, done: set<nat>, post: bool)
    requires Shape(g, ranks) && In(g, v) && Reach(g, ranks, v) <= area
    requires v.node !in done && Settled(g, ranks, done, Rank(g, ranks, v))
    requires Marked(area, m0, c, done, t.mark)
    ensures Marked(area, m0, c, done + Reach(g, ranks, v), Visit(g, ranks, v, t, post).mark)
    ensures Visit(g, ranks, v, t, post).log == t.log + Order(g, ranks, v, done, post)
    ensures NodesOf(Order(g, ranks, v, done, post)) == Reach(g, ranks, v) - done
    decreases TERMID - Rank(g, ranks, v), 2
  {
    hide Marked, Settled, Visit, NodesOf, Shape;
    var added := VisitOk(g, ranks, area, m0, c, v, t, post, done);
    ReachSelf(g, ranks, v);
    MarkedEnter(area, m0, c, done, t.mark, v.node);
    var t1 := Enter(v, t, post);
    if v.node in g {
      KidsOrder(g, ranks, area, m0, c, v, t1, done, post);
      var a := Order(g, ranks, g[v.node].thn, done + {v.node}, post);
      var b := Order(g, ranks, g[v.node].els, done + {v.node} + NodesOf(a), post);
      LogOf(g, ranks, v, t, post, a, b);
    } else {
      LeafLog(g, ranks, v, t, post);
    }
    SameEnd(t.log, added, Order(g, ranks, v, done, post));
  }

  lemma LeafLog(g: Nodes, ranks: seq<nat>, v: Edge, t: Trace, post: bool)
    requires Shape(g, ranks) && In(g, v) && v.node !in g
    ensures Visit(g, ranks, v, t, post).log == t.log + [v]
  {
  }

  lemma LogOf(g: Nodes, ranks: seq<nat>, v: Edge, t: Trace, post: bool, a: seq<Edge>, b: seq<Edge>)
    requires Shape(g, ranks) && v.node in g
    requires var t1 := Enter(v, t, post); VisitElse(g, ranks, v, VisitThen(g, ranks, v, t1, post), post).log == t1.log + a + b
    ensures Visit(g, ranks, v, t, post).log == t.log + if post then a + b + [v] else [v] + a + b
  {
    hide VisitThen, VisitElse, Shape;
    if post {
      assert t.log + a + b + [v] == t.log + (a + b + [v]);
    } else {
      assert t.log + [v] + a + b == t.log + ([v] + a + b);
    }
  }

  lemma KidsOrder(g: Nodes, ranks: seq<nat>, area: set<nat>, m0: set<nat>, c: bool, v: Edge, t1: Trace, done: set<nat>, post: bool)
    requires Shape(g, ranks) && v.node in g && Reach(g, ranks, v) <= area
    requires v.node !in done && Settled(g, ranks, done, Rank(g, ranks, v))
    requires Marked(area, m0, c, done + {v.node}, t1.mark)
    ensures In(g, g[v.node].thn) && In(g, g[v.node].els)
    ensures var a := Order(g, ranks, g[v.node].thn, done + {v.node}, post);
      var b := Order(g, ranks, g[v.node].els, done + {v.node} + NodesOf(a), post);
      VisitElse(g, ranks, v, VisitThen(g, ranks, v, t1, post), post).log == t1.log + a + b
    decreases TERMID - Rank(g, ranks, v), 1
  {
    hide Marked, Settled, Shape;
    LinkRanks(g, ranks, v);
    ReachSplit(g, ranks, v);
    var T, E := g[v.node].thn, g[v.node].els;
    var done1 := done + {v.node};
    SettledAfter(g, ranks, done, v);
    KidOrder(g, ranks, area, m0, c, v, T, t1, done1, post);
    var t2 := VisitThen(g, ranks, v, t1, post);
    var done2 := done1 + Reach(g, ranks, T);
    SettledReach(g, ranks, done1, T, Rank(g, ranks, v) + 1);
    KidOrder(g, ranks, area, m0, c, v, E, t2, done2, post);
    assert done2 == done1 + NodesOf(Order(g, ranks, T, done1, post));
  }

  /** From uniform marks both traversals visit the nodes in depth-first order. */
  lemma TraversalOrder(g: Nodes, ranks: seq<nat>, v: Edge, mark: set<nat>, c: bool, post: bool)
    requires Shape(g, ranks) && In(g, v)
    requires forall n :: n in Reach(g, ranks, v) ==> (n in mark) == c
    ensures Visit(g, ranks, v, Trace(mark, []), post).log == Order(g, ranks, v, {}, post)
  {
    assert Settled(g, ranks, {}, Rank(g, ranks, v));
    assert Marked(Reach(g, ranks, v), mark, c, {}, mark);
    VisitOrder(g, ranks, Reach(g, ranks, v), mark, c, v, Trace(mark, []), {}, post);
  }

  /** The order over the first k elements of a vector. */
  function OrderVec(g: Nodes, ranks: seq<nat>, fs: seq<Pointer>, k: nat, post: bool): seq<Edge>
    requires Shape(g, ranks) && k <= |fs| && forall i {:trigger fs[i]} :: 0 <= i < |fs| && fs[i].To? ==> In(g, fs[i].e)
  {
    if k == 0 then []
    else
      var a := OrderVec(g, ranks, fs, k - 1, post);
      a + if fs[k - 1].To? then Order(g, ranks, fs[k - 1].e, NodesOf(a), post) else []
  }

  /** The children of the i-th node are in base or come earlier. */
  ghost predicate After(g: Nodes, base: set<nat>, log: seq<Edge>, i: nat)
    requires i < |log|
  {
    var n := log[i].node;
    n in g ==> g[n].thn.node in base + NodesOf(log[..i]) && g[n].els.node in base + NodesOf(log[..i])
  }

  ghost predicate PostOrdered(g: Nodes, base: set<nat>, log: seq<Edge>) {
    forall i {:trigger After(g, base, log, i)} :: 0 <= i < |log| ==> After(g, base, log, i)
  }

  lemma OrderedJoin(g: Nodes, base: set<nat>, a: seq<Edge>, b: seq<Edge>)
    requires PostOrdered(g, base, a) && PostOrdered(g, base + NodesOf(a), b)
    ensures PostOrdered(g, base, a + b)
  {
    forall i | 0 <= i < |a + b|
      ensures After(g, base, a + b, i)
    {
      if i < |a| {
        assert (a + b)[..i] == a[..i];
        assert After(g, base, a, i);
      } else {
        assert (a + b)[..i] == a + b[..i - |a|];
        LogJoin(a, b[..i - |a|]);
        assert After(g, base + NodesOf(a), b, i - |a|);
      }
    }
  }

  /** Nodes above all of a log are not needed before it. */
  lemma DropAbove(g: Nodes, ranks: seq<nat>, done: set<nat>, log: seq<Edge>, v: Edge)
    requires Shape(g, ranks) && v.node in g && PostOrdered(g, done + {v.node}, log)
    requires forall i {:trigger log[i]} :: 0 <= i < |log| ==> In(g, log[i]) && Rank(g, ranks, v) < Rank(g, ranks, log[i])
    ensures PostOrdered(g, done, log)
  {
    forall i | 0 <= i < |log|
      ensures After(g, done, log, i)
    {
      assert After(g, done + {v.node}, log, i);
      if log[i].node in g {
        LinkRanks(g, ranks, log[i]);
        assert g[log[i].node].thn.node != v.node && g[log[i].node].els.node != v.node;
      }
    }
  }

  /** The nodes of an order rank no higher than its root. */
  lemma {:induction false} OrderRanks(g: Nodes, ranks: seq<nat>, v: Edge, done: set<nat>, post: bool)
    requires Shape(g, ranks) && In(g, v)
    ensures forall i {:trigger Order(g, ranks, v, done, post)[i]} :: 0 <= i < |Order(g, ranks, v, done, post)| ==>
      In(g, Order(g, ranks, v, done, post)[i]) && Rank(g, ranks, Order(g, ranks, v, done, post)[i]) >= Rank(g, ranks, v)
    decreases TERMID - Rank(g, ranks, v)
  {
    if v.node !in done && v.node in g {
      LinkRanks(g, ranks, v);
      var a := Order(g, ranks, g[v.node].thn, done + {v.node}, post);
      OrderRanks(g, ranks, g[v.node].thn, done + {v.node}, post);
      OrderRanks(g, ranks, g[v.node].els, done + {v.node} + NodesOf(a), post);
    }
  }

  /** The root of an order is in it unless it was done. */
  lemma RootIn(g: Nodes, ranks: seq<nat>, v: Edge, done: set<nat>, post: bool)
    requires Shape(g, ranks) && In(g, v)
    ensures v.node in done + NodesOf(Order(g, ranks, v, done, post))
  {
    var l := Order(g, ranks, v, done, post);
    if v.node !in done {
      var i := if post then |l| - 1 else 0;
      assert l[i].node == v.node;
    }
  }

  /** In post-order children come first. */
  lemma {:induction false} PostIsFirst(g: Nodes, ranks: seq<nat>, v: Edge, done: set<nat>)
    requires Shape(g, ranks) && In(g, v)
    ensures PostOrdered(g, done, Order(g, ranks, v, done, true))
    decreases TERMID - Rank(g, ranks, v)
  {
    if v.node !in done && v.node in g {
      LinkRanks(g, ranks, v);
      var T, E := g[v.node].thn, g[v.node].els;
      var a := Order(g, ranks, T, done + {v.node}, true);
      var b := Order(g, ranks, E, done + {v.node} + NodesOf(a), true);
      PostIsFirst(g, ranks, T, done + {v.node});
      PostIsFirst(g, ranks, E, done + {v.node} + NodesOf(a));
      OrderRanks(g, ranks, T, done + {v.node}, true);
      OrderRanks(g, ranks, E, done + {v.node} + NodesOf(a), true);
      DropAbove(g, ranks, done, a, v);
      assert done + {v.node} + NodesOf(a) == done + NodesOf(a) + {v.node};
      DropAbove(g, ranks, done + NodesOf(a), b, v);
      OrderedJoin(g, done, a, b);
      RootIn(g, ranks, T, done + {v.node}, true);
      RootIn(g, ranks, E, done + {v.node} + NodesOf(a), true);
      LogJoin(a, b);
      LastAfter(g, done, a, b, v);
    }
  }

  lemma LastAfter(g: Nodes, base: set<nat>, a: seq<Edge>, b: seq<Edge>, v: Edge)
    requires v.node in g && PostOrdered(g, base, a + b)
    requires g[v.node].thn.node in base + NodesOf(a + b) && g[v.node].els.node in base + NodesOf(a + b)
    ensures PostOrdered(g, base, a + b + [v])
  {
    var l := a + b + [v];
    forall i | 0 <= i < |l|
      ensures After(g, base, l, i)
    {
      if i < |a + b| {
        assert l[..i] == (a + b)[..i];
        assert After(g, base, a + b, i);
      } else {
        assert l[..i] == a + b;
      }
    }
  }

  /** A post-order visit logs every node after its children. */
  lemma VisitPost(g: Nodes, ranks: seq<nat>, area: set<nat>, m0: set<nat>, c: bool, v: Edge, t: Trace, done: set<nat>)
    returns (added: seq<Edge>)
    requires Shape(g, ranks) && In(g, v) && Reach(g, ranks, v) <= area
    requires v.node !in done && Settled(g, ranks, done, Rank(g, ranks, v))
    requires Marked(area, m0, c, done, t.mark)
    ensures Marked(area, m0, c, done + Reach(g, ranks, v), Visit(g, ranks, v, t, true).mark)
    ensures Visit(g, ranks, v, t, true).log == t.log + added
    ensures NodesOf(added) == Reach(g, ranks, v) - done && PostOrdered(g, done, added)
  {
    hide Marked, Settled, PostOrdered;
    added := Order(g, ranks, v, done, true);
    VisitOrder(g, ranks, area, m0, c, v, t, done, true);
    PostIsFirst(g, ranks, v, done);
  }

  lemma {:induction false} VecIsFirst(g: Nodes, ranks: seq<nat>, fs: seq<Pointer>, k: nat)
    requires Shape(g, ranks) && k <= |fs| && forall i {:trigger fs[i]} :: 0 <= i < |fs| && fs[i].To? ==> In(g, fs[i].e)
    ensures PostOrdered(g, {}, OrderVec(g, ranks, fs, k, true))
  {
    hide Order, PostOrdered;
    if k == 0 {
      NothingFirst(g);
    } else {
      VecIsFirst(g, ranks, fs, k - 1);
      var a := OrderVec(g, ranks, fs, k - 1, true);
      if fs[k - 1].To? {
        PostIsFirst(g, ranks, fs[k - 1].e, NodesOf(a));
        assert {} + NodesOf(a) == NodesOf(a);
        OrderedJoin(g, {}, a, Order(g, ranks, fs[k - 1].e, NodesOf(a), true));
      } else {
        assert a + [] == a;
      }
    }
  }

  lemma NothingFirst(g: Nodes)
    ensures PostOrdered(g, {}, [])
  {
  }

  /** In post-order, everything reachable from a node is in the log up to it. */
  lemma {:induction false} ReachBefore(g: Nodes, ranks: seq<nat>, log: seq<Edge>, q: nat, e: Edge)
    requires Shape(g, ranks) && PostOrdered(g, {}, log) && q <= |log| && In(g, e) && e.node in NodesOf(log[..q])
    ensures Reach(g, ranks, e) <= NodesOf(log[..q])
    decreases TERMID - Rank(g, ranks, e)
  {
    if e.node in g {
      LinkRanks(g, ranks, e);
      ReachSplit(g, ranks, e);
      KidsBefore(g, log, q, e.node);
      ReachBefore(g, ranks, log, q, g[e.node].thn);
      ReachBefore(g, ranks, log, q, g[e.node].els);
    }
  }

  lemma KidsBefore(g: Nodes, log: seq<Edge>, q: nat, n: nat)
    requires PostOrdered(g, {}, log) && q <= |log| && n in g && n in NodesOf(log[..q])
    ensures g[n].thn.node in NodesOf(log[..q]) && g[n].els.node in NodesOf(log[..q])
  {
    var i :| 0 <= i < q && log[..q][i].node == n;
    assert After(g, {}, log, i);
    assert log[..q] == log[..i] + log[i..q];
    LogJoin(log[..i], log[i..q]);
  }
}
