/** Factored output of a vector of functions: naming of nodes, and the list of equations. */
module FactorVec {
  import opened Functions
  import opened Graph
  import opened State
  import opened ConstrainOps
  import opened Expressions
  import opened Printing
  import opened Factor
  import opened Traverse
  import opened DepthFirst
  import SumOfCubes
  import Support

  /** The nodes reachable from the first k elements. */
  function ReachAll(g: Nodes, ranks: seq<nat>, fs: seq<Pointer>, k: nat): set<nat>
    requires Shape(g, ranks) && k <= |fs| && forall i {:trigger fs[i]} :: 0 <= i < |fs| && fs[i].To? ==> In(g, fs[i].e)
  {
    if k == 0 then {}
    else ReachAll(g, ranks, fs, k - 1) + if fs[k - 1].To? then Reach(g, ranks, fs[k - 1].e) else {}
  }

  ghost predicate VecIn(g: Nodes, fs: seq<Pointer>) {
    forall i {:trigger fs[i]} :: 0 <= i < |fs| && fs[i].To? ==> In(g, fs[i].e)
  }

  ghost predicate Closed(g: Nodes, ranks: seq<nat>, done: set<nat>)
    requires Shape(g, ranks)
  {
    Settled(g, ranks, done, 0)
  }

  /** The state of a traversal of a vector: the visited nodes are closed, marked, and logged once. */
  ghost predicate Visited(g: Nodes, ranks: seq<nat>, area: set<nat>, done: set<nat>, t: Trace, marked: Pointer)
    requires Shape(g, ranks)
  {
    && Closed(g, ranks, done) && Marked(area, {}, false, done, t.mark)
    && Once(t.log) && NodesOf(t.log) == done
    && (if marked.To? then marked.e.node in done else done == {})
  }

  lemma {:induction false} ReachAllMono(g: Nodes, ranks: seq<nat>, fs: seq<Pointer>, k: nat)
    requires Shape(g, ranks) && VecIn(g, fs) && k < |fs|
    ensures ReachAll(g, ranks, fs, k + 1) <= ReachAll(g, ranks, fs, |fs|)
    ensures fs[k].To? ==> Reach(g, ranks, fs[k].e) <= ReachAll(g, ranks, fs, |fs|)
    decreases |fs| - k
  {
    if k + 1 < |fs| {
      ReachAllMono(g, ranks, fs, k + 1);
    }
  }

  lemma VisitNext(g: Nodes, ranks: seq<nat>, area: set<nat>, done: set<nat>, t: Trace, marked: Pointer, e: Edge, post: bool)
    requires Shape(g, ranks) && Visited(g, ranks, area, done, t, marked) && In(g, e) && Reach(g, ranks, e) <= area
    requires e.node !in done
    ensures Visited(g, ranks, area, done + Reach(g, ranks, e), Visit(g, ranks, e, t, post), To(e))
    ensures Visit(g, ranks, e, t, post).log == t.log + Order(g, ranks, e, NodesOf(t.log), post)
  {
    SettledReach(g, ranks, done, e, 0);
    assert Settled(g, ranks, done + Reach(g, ranks, e), 0);
    assert Settled(g, ranks, done, Rank(g, ranks, e)) by {
      SettledHigher(g, ranks, done, 0, Rank(g, ranks, e));
    }
    var added := VisitOk(g, ranks, area, {}, false, e, t, post, done);
    VisitOrder(g, ranks, area, {}, false, e, t, done, post);
    LogJoin(t.log, added);
    ReachSelf(g, ranks, e);
  }

  /** An element whose node has been visited adds nothing. */
  lemma VisitSkip(g: Nodes, ranks: seq<nat>, area: set<nat>, done: set<nat>, t: Trace, marked: Pointer, e: Edge)
    requires Shape(g, ranks) && Visited(g, ranks, area, done, t, marked) && In(g, e) && e.node in done
    ensures Visited(g, ranks, area, done, t, To(e)) && done + Reach(g, ranks, e) == done
  {
    CompleteOf(g, ranks, done, 0, e);
  }

  lemma VisitTest(g: Nodes, ranks: seq<nat>, area: set<nat>, done: set<nat>, t: Trace, marked: Pointer, e: Edge)
    requires Shape(g, ranks) && Visited(g, ranks, area, done, t, marked) && In(g, e) && Reach(g, ranks, e) <= area
    ensures (marked.Void? || NotMarked(t.mark, e, marked.e)) <==> e.node !in done
  {
    ReachSelf(g, ranks, e);
    if marked.To? {
      MarkedTest(area, {}, false, done, t.mark, e, marked.e);
    }
  }

  /** bdd_traverse_vec_pre and bdd_traverse_vec_post from uniform marks: every node reachable from the
      vector is visited exactly once, in depth-first order. */
  method TraverseVec(m: Manager, fs: seq<Pointer>, post: bool) returns (log: seq<Edge>)
    requires m.Valid() && Shape(m.nodes, m.ranks) && VecIn(m.nodes, fs)
    ensures Once(log) && NodesOf(log) == ReachAll(m.nodes, m.ranks, fs, |fs|)
    ensures log == OrderVec(m.nodes, m.ranks, fs, |fs|, post)
  {
    hide TableOk, CacheOk, Inverse, Shape, Visited, ReachAll, Visit, Reach, OrderVec, Order;
    assert OrderVec(m.nodes, m.ranks, fs, 0, post) == [] by { VecNone(m.nodes, m.ranks, fs, post); }
    ghost var g, ranks := m.nodes, m.ranks;
    ghost var area := ReachAll(g, ranks, fs, |fs|);
    var t, marked := Trace({}, []), Void;
    VisitNone(g, ranks, fs, area);
    for k := 0 to |fs|
      invariant Visited(g, ranks, area, ReachAll(g, ranks, fs, k), t, marked) && t.log == OrderVec(g, ranks, fs, k, post)
    {
      VecNext(g, ranks, fs, k, post);
      ReachAllNext(g, ranks, fs, k);
      if fs[k].To? {
        ReachAllMono(g, ranks, fs, k);
        ghost var done := ReachAll(g, ranks, fs, k);
        VisitTest(g, ranks, area, done, t, marked, fs[k].e);
        if marked.Void? || NotMarked(t.mark, fs[k].e, marked.e) {
          VisitNext(g, ranks, area, done, t, marked, fs[k].e, post);
          t := Visit(m.nodes, m.ranks, fs[k].e, t, post);
        } else {
          VisitSkip(g, ranks, area, done, t, marked, fs[k].e);
          VisitedLog(g, ranks, area, done, t, marked);
        }
        marked := fs[k];
      }
    }
    log := t.log;
    VisitedLog(g, ranks, area, area, t, marked);
  }

  lemma VecNext(g: Nodes, ranks: seq<nat>, fs: seq<Pointer>, k: nat, post: bool)
    requires Shape(g, ranks) && VecIn(g, fs) && k < |fs|
    ensures var a := OrderVec(g, ranks, fs, k, post);
      OrderVec(g, ranks, fs, k + 1, post) == if fs[k].To? then a + Order(g, ranks, fs[k].e, NodesOf(a), post) else a
    ensures fs[k].To? && fs[k].e.node in NodesOf(OrderVec(g, ranks, fs, k, post)) ==>
      OrderVec(g, ranks, fs, k + 1, post) == OrderVec(g, ranks, fs, k, post)
  {
    hide Shape;
    var a := OrderVec(g, ranks, fs, k, post);
    assert a + [] == a;
  }

  lemma VisitNone(g: Nodes, ranks: seq<nat>, fs: seq<Pointer>, area: set<nat>)
    requires Shape(g, ranks) && VecIn(g, fs)
    ensures Visited(g, ranks, area, ReachAll(g, ranks, fs, 0), Trace({}, []), Void)
  {
    LogNone();
  }

  lemma VisitedLog(g: Nodes, ranks: seq<nat>, area: set<nat>, done: set<nat>, t: Trace, marked: Pointer)
    requires Shape(g, ranks) && Visited(g, ranks, area, done, t, marked)
    ensures Once(t.log) && NodesOf(t.log) == done
  {
  }

  lemma ReachAllNext(g: Nodes, ranks: seq<nat>, fs: seq<Pointer>, k: nat)
    requires Shape(g, ranks) && VecIn(g, fs) && k < |fs|
    ensures fs[k].To? ==> In(g, fs[k].e) && ReachAll(g, ranks, fs, k + 1) == ReachAll(g, ranks, fs, k) + Reach(g, ranks, fs[k].e)
    ensures fs[k].Void? ==> ReachAll(g, ranks, fs, k + 1) == ReachAll(g, ranks, fs, k)
  {
  }

  lemma VecNone(g: Nodes, ranks: seq<nat>, fs: seq<Pointer>, post: bool)
    requires Shape(g, ranks) && VecIn(g, fs)
    ensures OrderVec(g, ranks, fs, 0, post) == []
  {
  }

  /** The first element from k on that has node n, or the end. */
  function FirstFrom(fs: seq<Pointer>, k: nat, n: nat): (j: nat)
    requires k <= |fs|
    ensures k <= j <= |fs| && (j < |fs| ==> fs[j].To? && fs[j].e.node == n)
    decreases |fs| - k
  {
    if k == |fs| then k else if fs[k].To? && fs[k].e.node == n then k else FirstFrom(fs, k + 1, n)
  }

  ghost predicate RootsMarked(nm: Names, fs: seq<Pointer>, k: nat)
    requires k <= |fs|
  {
    forall n: nat {:trigger FirstFrom(fs, k, n)} {:trigger n in nm.root} ::
      && (n in nm.root <==> FirstFrom(fs, k, n) < |fs|)
      && (n in nm.inv <==> FirstFrom(fs, k, n) < |fs| && fs[FirstFrom(fs, k, n)].e.neg)
  }

  ghost predicate RootsIndexed(nm: Names, fs: seq<Pointer>, k: nat)
    requires k <= |fs|
  {
    forall n: nat {:trigger FirstFrom(fs, k, n)} ::
      FirstFrom(fs, k, n) < |fs| ==> n in nm.index && nm.index[n] == FirstFrom(fs, k, n)
  }

  /** Root flags and polarities, the first occurrence deciding. */
  method MarkRoots(fl: Fields, fs: seq<Pointer>)
    requires fl.Val() == Names({}, {}, {}, map[])
    modifies fl`root, fl`inv
    ensures RootsMarked(fl.Val(), fs, 0) && fl.flagged == {} && fl.index == map[]
  {
    for k := |fs| downto 0
      invariant RootsMarked(fl.Val(), fs, k)
    {
      if fs[k].To? {
        var n := fs[k].e.node;
        fl.root := fl.root + {n};
        fl.inv := if fs[k].e.neg then fl.inv + {n} else fl.inv - {n};
      }
    }
  }

  method IndexRoots(fl: Fields, fs: seq<Pointer>)
    modifies fl`index
    ensures RootsIndexed(fl.Val(), fs, 0)
  {
    for k := |fs| downto 0
      invariant RootsIndexed(fl.Val(), fs, k)
    {
      if fs[k].To? {
        fl.index := fl.index[fs[k].e.node := k];
      }
    }
  }

  /** mark_candidate_action on every node. Which nodes are used often enough, and in which polarity
      they need fewer negations, is left open; root nodes are always flagged, in their own polarity. */
  method MarkCandidates(fl: Fields, log: seq<Edge>)
    modifies fl`flagged, fl`inv
    ensures fl.flagged <= old(fl.flagged) + NodesOf(log) && NodesOf(log) * fl.root <= fl.flagged
    ensures forall n {:trigger n in fl.inv} :: n in fl.root ==> (n in fl.inv <==> n in old(fl.inv))
  {
    for i := 0 to |log|
      invariant fl.flagged <= old(fl.flagged) + NodesOf(log)
      invariant forall j {:trigger log[j]} :: 0 <= j < i && log[j].node in fl.root ==> log[j].node in fl.flagged
      invariant forall n {:trigger n in fl.inv} :: n in fl.root ==> (n in fl.inv <==> n in old(fl.inv))
    {
      var n := log[i].node;
      assert n in NodesOf(log);
      if n in fl.root {
        fl.flagged := fl.flagged + {n};
      } else if * {
        fl.flagged := fl.flagged + {n};
        if * {
          fl.inv := fl.inv + {n};
        }
      }
    }
  }

  /** The sub-expressions in the order of the log, in the polarity they are defined in. */
  function SubsOf(nm: Names, log: seq<Edge>): seq<Edge> {
    if log == [] then []
    else
      var n := log[|log| - 1].node;
      SubsOf(nm, log[..|log| - 1]) + if IsSub(nm, n) then [Edge(n, n in nm.inv)] else []
  }

  /** Sub-expressions are numbered in the order of the log. */
  ghost predicate Indexed(nm: Names, log: seq<Edge>, k: nat)
    requires k <= |log|
  {
    forall j {:trigger log[j]} :: 0 <= j < k && IsSub(nm, log[j].node) ==>
      log[j].node in nm.index && nm.index[log[j].node] == |SubsOf(nm, log[..j])|
  }

  lemma SubsNext(nm: Names, log: seq<Edge>, k: nat)
    requires k < |log|
    ensures SubsOf(nm, log[..k + 1]) ==
      SubsOf(nm, log[..k]) + if IsSub(nm, log[k].node) then [Edge(log[k].node, log[k].node in nm.inv)] else []
  {
    assert log[..k + 1][..k] == log[..k];
  }

  /** The same flags and polarities, for the sub-expressions. */
  ghost predicate SameSubs(nm: Names, nm': Names) {
    forall n: nat {:trigger IsSub(nm, n)} {:trigger IsSub(nm', n)} ::
      && (IsSub(nm, n) <==> IsSub(nm', n))
      && (IsSub(nm, n) ==> (n in nm.inv <==> n in nm'.inv) && (n in nm.index <==> n in nm'.index)
                           && (n in nm.index ==> nm.index[n] == nm'.index[n]))
  }

  lemma {:induction false} SubsSame(nm: Names, nm': Names, log: seq<Edge>)
    requires forall n: nat {:trigger IsSub(nm, n)} {:trigger IsSub(nm', n)} ::
      (IsSub(nm, n) <==> IsSub(nm', n)) && (IsSub(nm, n) ==> (n in nm.inv <==> n in nm'.inv))
    ensures SubsOf(nm, log) == SubsOf(nm', log)
  {
    if log != [] {
      SubsSame(nm, nm', log[..|log| - 1]);
      assert IsSub(nm, log[|log| - 1].node) <==> IsSub(nm', log[|log| - 1].node);
    }
  }

  lemma IndexedSame(nm: Names, nm': Names, log: seq<Edge>)
    requires SameSubs(nm, nm') && Indexed(nm, log, |log|)
    ensures Indexed(nm', log, |log|) && SubsOf(nm', log) == SubsOf(nm, log)
  {
    SubsSame(nm, nm', log);
    forall j | 0 <= j < |log| && IsSub(nm', log[j].node)
      ensures log[j].node in nm'.index && nm'.index[log[j].node] == |SubsOf(nm', log[..j])|
    {
      SubsSame(nm, nm', log[..j]);
      assert IsSub(nm, log[j].node);
    }
  }

  /** name_action on every node. */
  method NameNodes(fl: Fields, log: seq<Edge>)
    requires Once(log)
    modifies fl`index
    ensures Indexed(fl.Val(), log, |log|)
    ensures forall n {:trigger n in fl.index} :: n in fl.root && n in old(fl.index) ==> n in fl.index && fl.index[n] == old(fl.index[n])
  {
    var count := 0;
    for i := 0 to |log|
      invariant count == |SubsOf(fl.Val(), log[..i])| && Indexed(fl.Val(), log, i)
      invariant forall n {:trigger n in old(fl.index)} :: n in fl.root && n in old(fl.index) ==> n in fl.index && fl.index[n] == old(fl.index[n])
    {
      hide SubsOf, Indexed, Once;
      var n := log[i].node;
      ghost var nm := fl.Val();
      SubsNext(nm, log, i);
      assert |SubsOf(nm, log[..i + 1])| == count + if IsSub(nm, n) then 1 else 0;
      if n != 0 && n !in fl.root {
        if n in fl.flagged {
          fl.index := fl.index[n := count];
          count := count + 1;
        } else {
          fl.index := fl.index[n := 0];
        }
      }
      NameStep(nm, fl.Val(), log, i);
      assert count == |SubsOf(nm, log[..i + 1])|;
    }
  }

  lemma NameStep(nm: Names, nm': Names, log: seq<Edge>, i: nat)
    requires Once(log) && i < |log| && Indexed(nm, log, i)
    requires nm'.flagged == nm.flagged && nm'.root == nm.root && nm'.inv == nm.inv
    requires forall n {:trigger n in nm'.index} :: n != log[i].node && n in nm.index ==> n in nm'.index && nm'.index[n] == nm.index[n]
    requires IsSub(nm, log[i].node) ==> log[i].node in nm'.index && nm'.index[log[i].node] == |SubsOf(nm, log[..i])|
    ensures Indexed(nm', log, i + 1) && SubsOf(nm', log[..i + 1]) == SubsOf(nm, log[..i + 1])
  {
    SubsSame(nm, nm', log[..i + 1]);
    forall j | 0 <= j < i + 1 && IsSub(nm', log[j].node)
      ensures log[j].node in nm'.index && nm'.index[log[j].node] == |SubsOf(nm', log[..j])|
    {
      SubsSame(nm, nm', log[..j]);
      assert IsSub(nm, log[j].node);
    }
  }

  /** Every name is right: a root's is that of an element with just this edge, a sub-expression's that of
      its place in subs. */
  ghost predicate Named(nm: Names, g: Nodes, fs: seq<Pointer>, subs: seq<Edge>) {
    forall n {:trigger n in nm.flagged} :: n in nm.flagged && n in g ==>
      n in nm.index && NameOk(nm, fs, subs, n)
  }

  ghost predicate NameOk(nm: Names, fs: seq<Pointer>, subs: seq<Edge>, n: nat)
    requires n in nm.index
  {
    var i := nm.index[n];
    if n in nm.root then i < |fs| && fs[i] == To(Edge(n, n in nm.inv)) else i < |subs| && subs[i] == Edge(n, n in nm.inv)
  }

  lemma {:induction false} SubsPrefix(nm: Names, log: seq<Edge>, j: nat)
    requires j < |log| && IsSub(nm, log[j].node)
    ensures |SubsOf(nm, log[..j])| < |SubsOf(nm, log)|
    ensures SubsOf(nm, log)[|SubsOf(nm, log[..j])|] == Edge(log[j].node, log[j].node in nm.inv)
    decreases |log|
  {
    var k := |log| - 1;
    SubsNext(nm, log, k);
    assert log[..k + 1] == log;
    if j < k {
      SubsPrefix(nm, log[..k], j);
      assert log[..k][..j] == log[..j] && log[..k][j] == log[j];
    }
  }

  /** After all passes every flagged node has its name. */
  lemma NamedAll(nm: Names, g: Nodes, fs: seq<Pointer>, log: seq<Edge>)
    requires 0 !in g && Indexed(nm, log, |log|) && nm.flagged <= NodesOf(log)
    requires forall n {:trigger n in nm.root} :: n in nm.root ==> n in nm.index && NameOk(nm, fs, [], n)
    ensures Named(nm, g, fs, SubsOf(nm, log))
  {
    forall n | n in nm.flagged && n in g
      ensures n in nm.index && NameOk(nm, fs, SubsOf(nm, log), n)
    {
      if n in nm.root {
        assert NameOk(nm, fs, [], n);
      } else {
        var j :| 0 <= j < |log| && log[j].node == n;
        assert IsSub(nm, log[j].node);
        SubsPrefix(nm, log, j);
      }
    }
  }

  /** All the naming: candidates, roots, and sub-expressions. */
  method NameAll(fl: Fields, fs: seq<Pointer>, log: seq<Edge>, style: bool, ghost g: Nodes)
    requires fl.Val() == Names({}, {}, {}, map[]) && Once(log) && 0 !in g
    modifies fl
    ensures Named(fl.Val(), g, fs, SubsOf(fl.Val(), log)) && Indexed(fl.Val(), log, |log|) && fl.flagged <= NodesOf(log)
    ensures !style ==> fl.root == {}
  {
    if style {
      MarkRoots(fl, fs);
    }
    ghost var nm0 := fl.Val();
    MarkCandidates(fl, log);
    if style {
      IndexRoots(fl, fs);
    }
    ghost var nm1 := fl.Val();
    NameNodes(fl, log);
    forall n | n in fl.root
      ensures n in fl.index && NameOk(fl.Val(), fs, [], n)
    {
      assert n in nm0.root;
      assert FirstFrom(fs, 0, n) < |fs|;
      assert n in nm1.index;
    }
    NamedAll(fl.Val(), g, fs, log);
  }

  /** What the names stand for: a root's function, and a sub-expression's in its polarity. */
  ghost function Value(den: Den, fs: seq<Pointer>, subs: seq<Edge>): Env {
    (r: Ref) =>
      if r.root then (if r.index < |fs| && fs[r.index].To? then Sem(den, fs[r.index].e) else iset{})
      else if r.index < |subs| then Sem(den, subs[r.index]) else iset{}
  }

  lemma NamedMeans(nm: Names, g: Nodes, den: Den, fs: seq<Pointer>, subs: seq<Edge>)
    requires Named(nm, g, fs, subs)
    ensures Means(Value(den, fs, subs), nm, g, den)
  {
    var env := Value(den, fs, subs);
    forall n | n in nm.flagged && n in g
      ensures n in nm.index && env(RefOf(nm, n)) == Sem(den, Edge(n, n in nm.inv))
    {
      assert NameOk(nm, fs, subs, n);
    }
  }

  /** Name r may be used in the equation of name of, whose edge is e: it belongs to a node below, or is
      another name of the same node. */
  ghost predicate MayUse(nm: Names, g: Nodes, ranks: seq<nat>, e: Edge, of: Ref, r: Ref) {
    CalledFrom(nm, g, ranks, r, Rank(g, ranks, e) + 1) || (of.root && r != of && Called(nm, g, r, e.node))
  }

  /** The equation d is true, and uses names below only. */
  ghost predicate DefOk(nm: Names, g: Nodes, ranks: seq<nat>, env: Env, e: Edge, d: Def) {
    && ReadOr(env, d.ts) == Got(env(d.r), [])
    && (forall r {:trigger r in RefsIn(d.ts)} :: r in RefsIn(d.ts) ==> MayUse(nm, g, ranks, e, d.r, r))
  }

  /** Names are only ever added. */
  ghost predicate Extends(nm: Names, nm': Names) {
    forall n {:trigger n in nm.flagged} :: n in nm.flagged && n in nm.index ==>
      n in nm'.flagged && n in nm'.index && RefOf(nm', n) == RefOf(nm, n)
  }

  lemma CalledMore(nm: Names, nm': Names, g: Nodes, r: Ref, n: nat)
    requires Extends(nm, nm') && Called(nm, g, r, n)
    ensures Called(nm', g, r, n)
  {
  }

  lemma DefMore(nm: Names, nm': Names, g: Nodes, ranks: seq<nat>, env: Env, e: Edge, d: Def)
    requires Extends(nm, nm') && DefOk(nm, g, ranks, env, e, d)
    ensures DefOk(nm', g, ranks, env, e, d)
  {
    forall r | r in RefsIn(d.ts)
      ensures MayUse(nm', g, ranks, e, d.r, r)
    {
      assert MayUse(nm, g, ranks, e, d.r, r);
      if CalledFrom(nm, g, ranks, r, Rank(g, ranks, e) + 1) {
        var n :| Called(nm, g, r, n) && Rank(g, ranks, Edge(n, false)) >= Rank(g, ranks, e) + 1;
        CalledMore(nm, nm', g, r, n);
      } else {
        CalledMore(nm, nm', g, r, e.node);
      }
    }
  }

  /** A definition printed in full. */
  lemma PrintedDef(nm: Names, g: Nodes, ranks: seq<nat>, env: Env, e: Edge, ts: seq<Token>, r: Ref)
    requires Printed(nm, g, ranks, env, NO_OP, ts, env(r), Rank(g, ranks, e) + 1)
    ensures DefOk(nm, g, ranks, env, e, Def(r, ts))
  {
    ReadWhole(env, ts, env(r));
    forall q | q in RefsIn(ts)
      ensures MayUse(nm, g, ranks, e, r, q)
    {
      assert CalledFrom(nm, g, ranks, q, Rank(g, ranks, e) + 1);
    }
  }

  /** A constant root. */
  lemma ConstDef(nm: Names, s: Table, ranks: seq<nat>, fs: seq<Pointer>, subs: seq<Edge>, k: nat)
    requires TableOk(s, ranks) && k < |fs| && fs[k].To? && fs[k].e.node == 0
    ensures DefOk(nm, s.g, ranks, Value(s.den, fs, subs), fs[k].e, Def(Ref(true, k), [TConst(!fs[k].e.neg)]))
  {
    var env, e := Value(s.den, fs, subs), fs[k].e;
    PrintConst(nm, s, ranks, e, env, NO_OP, Rank(s.g, ranks, e) + 1);
    PrintedDef(nm, s.g, ranks, env, e, [TConst(!e.neg)], Ref(true, k));
  }

  /** A root whose node has another name already. */
  lemma AliasDef(nm: Names, s: Table, ranks: seq<nat>, fs: seq<Pointer>, subs: seq<Edge>, k: nat)
    requires TableOk(s, ranks) && Named(nm, s.g, fs, subs) && k < |fs| && fs[k].To? && fs[k].e.node in s.g
    requires fs[k].e.node in nm.flagged && fs[k].e.node in nm.index && nm.index[fs[k].e.node] != k
    ensures var n := fs[k].e.node;
      DefOk(nm, s.g, ranks, Value(s.den, fs, subs), fs[k].e, Def(Ref(true, k), [TRef(RefOf(nm, n), fs[k].e.neg != (n in nm.inv))]))
  {
    var env, e := Value(s.den, fs, subs), fs[k].e;
    var n, r := e.node, Ref(true, k);
    var t := TRef(RefOf(nm, n), e.neg != (n in nm.inv));
    NamedMeans(nm, s.g, s.den, fs, subs);
    PrintName(nm, s, ranks, e, env, NO_OP);
    ReadWhole(env, [t], env(r));
    forall q | q in RefsIn([t])
      ensures MayUse(nm, s.g, ranks, e, r, q)
    {
      assert Called(nm, s.g, q, n);
    }
  }

  /** Giving an element's node the element's number as its name. */
  lemma PromoteOk(nm: Names, nm': Names, g: Nodes, fs: seq<Pointer>, subs: seq<Edge>, k: nat)
    requires Named(nm, g, fs, subs) && k < |fs| && fs[k].To? && fs[k].e.node !in nm.flagged
    requires var n := fs[k].e.node;
      nm' == Names(nm.flagged + {n}, nm.root + {n}, if fs[k].e.neg then nm.inv + {n} else nm.inv - {n}, nm.index[n := k])
    ensures Named(nm', g, fs, subs) && Extends(nm, nm') && SameSubs(nm, nm')
  {
    var n := fs[k].e.node;
    assert NameOk(nm', fs, subs, n) by {
      assert fs[k].e == Edge(n, fs[k].e.neg);
    }
    forall l | l in nm'.flagged && l in g
      ensures l in nm'.index && NameOk(nm', fs, subs, l)
    {
      if l != n {
        assert l in nm.flagged;
        assert NameOk(nm, fs, subs, l);
      }
    }
  }

  /** The equations of the first k elements. */
  ghost predicate RootDefs(nm: Names, g: Nodes, ranks: seq<nat>, env: Env, fs: seq<Pointer>, defs: seq<Def>) {
    && |defs| <= |fs|
    && (forall k {:trigger defs[k]} :: 0 <= k < |defs| ==>
          && defs[k].r == Ref(true, k)
          && (if fs[k].Void? then defs[k].ts == [TVoid] else DefOk(nm, g, ranks, env, fs[k].e, defs[k])))
  }

  ghost predicate SubDefs(nm: Names, g: Nodes, ranks: seq<nat>, env: Env, subs: seq<Edge>, defs: seq<Def>) {
    && |defs| <= |subs|
    && (forall k {:trigger defs[k]} :: 0 <= k < |defs| ==>
          defs[k].r == Ref(false, k) && DefOk(nm, g, ranks, env, subs[k], defs[k]))
  }

  lemma RootDefsMore(nm: Names, nm': Names, g: Nodes, ranks: seq<nat>, env: Env, fs: seq<Pointer>, defs: seq<Def>, d: Def)
    requires Extends(nm, nm') && RootDefs(nm, g, ranks, env, fs, defs) && |defs| < |fs|
    requires d.r == Ref(true, |defs|)
    requires if fs[|defs|].Void? then d.ts == [TVoid] else DefOk(nm, g, ranks, env, fs[|defs|].e, d)
    ensures RootDefs(nm', g, ranks, env, fs, defs + [d])
  {
    var defs' := defs + [d];
    forall k | 0 <= k < |defs'|
      ensures defs'[k].r == Ref(true, k)
      ensures if fs[k].Void? then defs'[k].ts == [TVoid] else DefOk(nm', g, ranks, env, fs[k].e, defs'[k])
    {
      if k < |defs| {
        assert defs[k].r == Ref(true, k);
      }
      if fs[k].To? {
        DefMore(nm, nm', g, ranks, env, fs[k].e, defs'[k]);
      }
    }
  }

  lemma SubDefsMore(nm: Names, nm': Names, g: Nodes, ranks: seq<nat>, env: Env, subs: seq<Edge>, defs: seq<Def>)
    requires Extends(nm, nm') && SubDefs(nm, g, ranks, env, subs, defs)
    ensures SubDefs(nm', g, ranks, env, subs, defs)
  {
    forall k | 0 <= k < |defs|
      ensures defs[k].r == Ref(false, k) && DefOk(nm', g, ranks, env, subs[k], defs[k])
    {
      DefMore(nm, nm', g, ranks, env, subs[k], defs[k]);
    }
  }

  lemma ExtendsRefl(nm: Names)
    ensures Extends(nm, nm) && SameSubs(nm, nm)
  {
  }

  /** The root names given so far are those of the first k elements. */
  ghost predicate RootsBelow(nm: Names, k: nat) {
    forall n {:trigger n in nm.root} :: n in nm.root ==> n in nm.index && nm.index[n] < k
  }

  /** handle_root_vec for one element. */
  method HandleRoot(m: Manager, fl: Fields, opt: Options, fs: seq<Pointer>, k: nat, ghost subs: seq<Edge>)
    returns (ts: seq<Token>)
    requires m.Valid() && k < |fs| && AliveP(m, fs[k]) && Named(fl.Val(), m.nodes, fs, subs)
    modifies m`cache, fl
    ensures m.Valid() && Named(fl.Val(), m.nodes, fs, subs)
    ensures Extends(old(fl.Val()), fl.Val()) && SameSubs(old(fl.Val()), fl.Val())
    ensures old(RootsBelow(fl.Val(), k)) ==> RootsBelow(fl.Val(), k + 1)
    ensures if fs[k].Void? then ts == [TVoid]
      else DefOk(old(fl.Val()), m.nodes, m.ranks, Value(m.den, fs, subs), fs[k].e, Def(Ref(true, k), ts))
  {
    hide TableOk, CacheOk, Inverse, Named, DefOk, Value, Extends, SameSubs;
    ghost var nm := fl.Val();
    ExtendsRefl(nm);
    if fs[k].Void? {
      ts := [TVoid];
    } else if fs[k].e.node == 0 {
      ConstDef(nm, m.Tab(), m.ranks, fs, subs, k);
      ts := [TConst(!fs[k].e.neg)];
    } else {
      ts := HandleInner(m, fl, opt, fs, k, subs);
    }
  }

  lemma NameOf(nm: Names, g: Nodes, fs: seq<Pointer>, subs: seq<Edge>, n: nat)
    requires Named(nm, g, fs, subs) && n in g && n in nm.flagged
    ensures n in nm.index
  {
  }

  lemma RootValue(den: Den, fs: seq<Pointer>, subs: seq<Edge>, k: nat)
    requires k < |fs| && fs[k].To?
    ensures Value(den, fs, subs)(Ref(true, k)) == Sem(den, fs[k].e)
  {
  }

  method HandleInner(m: Manager, fl: Fields, opt: Options, fs: seq<Pointer>, k: nat, ghost subs: seq<Edge>)
    returns (ts: seq<Token>)
    requires m.Valid() && k < |fs| && fs[k].To? && Alive(m.nodes, m.refs, fs[k].e) && fs[k].e.node in m.nodes
    requires Named(fl.Val(), m.nodes, fs, subs)
    modifies m`cache, fl
    ensures m.Valid() && Named(fl.Val(), m.nodes, fs, subs)
    ensures Extends(old(fl.Val()), fl.Val()) && SameSubs(old(fl.Val()), fl.Val())
    ensures old(RootsBelow(fl.Val(), k)) ==> RootsBelow(fl.Val(), k + 1)
    ensures DefOk(old(fl.Val()), m.nodes, m.ranks, Value(m.den, fs, subs), fs[k].e, Def(Ref(true, k), ts))
  {
    hide TableOk, CacheOk, Inverse, Named, DefOk, Value, Extends, SameSubs, Printed, Means;
    ghost var nm, env := fl.Val(), Value(m.den, fs, subs);
    ExtendsRefl(nm);
    var e := fs[k].e;
    var n := e.node;
    if n in fl.flagged {
      NameOf(nm, m.nodes, fs, subs, n);
    }
    if n !in fl.flagged || fl.index[n] == k || SumOfCubes.OneVariable(m.nodes, e) {
      NamedMeans(nm, m.nodes, m.den, fs, subs);
      RootValue(m.den, fs, subs, k);
      ts := HandleAux(m, fl, opt, e, NO_OP, true, env, TERMID);
      PrintedDef(nm, m.nodes, m.ranks, env, e, ts, Ref(true, k));
      if n !in fl.flagged && !SumOfCubes.OneVariable(m.nodes, e) {
        fl.flagged, fl.root, fl.index := fl.flagged + {n}, fl.root + {n}, fl.index[n := k];
        fl.inv := if e.neg then fl.inv + {n} else fl.inv - {n};
        PromoteOk(nm, fl.Val(), m.nodes, fs, subs, k);
      }
    } else {
      AliasDef(nm, m.Tab(), m.ranks, fs, subs, k);
      ts := [TRef(Ref(n in fl.root, fl.index[n]), e.neg != (n in fl.inv))];
    }
  }

  ghost predicate VecAlive(s: Table, fs: seq<Pointer>) {
    forall i {:trigger fs[i]} :: 0 <= i < |fs| && fs[i].To? ==> Alive(s.g, s.refs, fs[i].e)
  }

  /** The equation of an element uses sub-expressions and elements before it. */
  ghost predicate NamesEarlier(defs: seq<Def>, subs: nat) {
    forall i, r {:trigger r in RefsIn(defs[i].ts)} :: 0 <= i < |defs| && r in RefsIn(defs[i].ts) ==>
      r.index < if r.root then i else subs
  }

  lemma NoRoots(nm: Names)
    requires nm.root == {}
    ensures RootsBelow(nm, 0)
  {
  }

  lemma NoneEarlier(subs: nat)
    ensures NamesEarlier([], subs)
  {
  }

  lemma EarlierNext(nm: Names, g: Nodes, ranks: seq<nat>, env: Env, fs: seq<Pointer>, subs: seq<Edge>, defs: seq<Def>, ts: seq<Token>)
    requires Named(nm, g, fs, subs) && |defs| < |fs| && RootsBelow(nm, |defs|) && NamesEarlier(defs, |subs|)
    requires if fs[|defs|].Void? then ts == [TVoid] else DefOk(nm, g, ranks, env, fs[|defs|].e, Def(Ref(true, |defs|), ts))
    ensures NamesEarlier(defs + [Def(Ref(true, |defs|), ts)], |subs|)
  {
    hide Named;
    var k := |defs|;
    forall r | r in RefsIn(ts)
      ensures r.index < if r.root then k else |subs|
    {
      if fs[k].To? {
        assert MayUse(nm, g, ranks, fs[k].e, Ref(true, k), r);
        var n :| Called(nm, g, r, n);
        NamedAt(nm, g, fs, subs, n);
      }
    }
  }

  lemma NamedAt(nm: Names, g: Nodes, fs: seq<Pointer>, subs: seq<Edge>, n: nat)
    requires Named(nm, g, fs, subs) && n in nm.flagged && n in g && n in nm.index
    ensures NameOk(nm, fs, subs, n)
  {
  }

  /** handle_root_vec */
  method HandleRoots(m: Manager, fl: Fields, opt: Options, fs: seq<Pointer>, ghost subs: seq<Edge>) returns (defs: seq<Def>)
    requires m.Valid() && VecAlive(m.Tab(), fs) && Named(fl.Val(), m.nodes, fs, subs)
    modifies m`cache, fl
    ensures m.Valid() && Named(fl.Val(), m.nodes, fs, subs)
    ensures Extends(old(fl.Val()), fl.Val()) && SameSubs(old(fl.Val()), fl.Val())
    ensures |defs| == |fs| && RootDefs(fl.Val(), m.nodes, m.ranks, Value(m.den, fs, subs), fs, defs)
    ensures old(fl.root) == {} ==> NamesEarlier(defs, |subs|)
  {
    hide TableOk, CacheOk, Inverse, Named, DefOk, Value, Extends, SameSubs, RootDefs, RootsBelow, NamesEarlier;
    ghost var fresh0 := fl.root == {};
    NoneEarlier(|subs|);
    if fresh0 {
      NoRoots(fl.Val());
    }
    ghost var nm0, env := fl.Val(), Value(m.den, fs, subs);
    ExtendsRefl(nm0);
    defs := [];
    NoDefs(nm0, m.nodes, m.ranks, env, fs, subs);
    for k := 0 to |fs|
      invariant m.Valid() && Named(fl.Val(), m.nodes, fs, subs)
      invariant Extends(nm0, fl.Val()) && SameSubs(nm0, fl.Val())
      invariant |defs| == k && RootDefs(fl.Val(), m.nodes, m.ranks, env, fs, defs)
      invariant fresh0 ==> RootsBelow(fl.Val(), k) && NamesEarlier(defs, |subs|)
    {
      ghost var nm := fl.Val();
      assert fs[k].To? ==> Alive(m.nodes, m.refs, fs[k].e);
      var ts := HandleRoot(m, fl, opt, fs, k, subs);
      if fresh0 {
        EarlierNext(nm, m.nodes, m.ranks, env, fs, subs, defs, ts);
      }
      RootDefsMore(nm, fl.Val(), m.nodes, m.ranks, env, fs, defs, Def(Ref(true, k), ts));
      ExtendsTrans(nm0, nm, fl.Val());
      defs := defs + [Def(Ref(true, k), ts)];
    }
  }

  lemma NoDefs(nm: Names, g: Nodes, ranks: seq<nat>, env: Env, fs: seq<Pointer>, subs: seq<Edge>)
    ensures RootDefs(nm, g, ranks, env, fs, []) && SubDefs(nm, g, ranks, env, subs, [])
  {
  }

  lemma ExtendsTrans(a: Names, b: Names, c: Names)
    requires Extends(a, b) && Extends(b, c) && SameSubs(a, b) && SameSubs(b, c)
    ensures Extends(a, c) && SameSubs(a, c)
  {
    forall n: nat
      ensures IsSub(a, n) <==> IsSub(c, n)
      ensures IsSub(a, n) ==> (n in a.inv <==> n in c.inv) && (n in a.index <==> n in c.index)
                              && (n in a.index ==> a.index[n] == c.index[n])
    {
      assert IsSub(a, n) <==> IsSub(b, n);
    }
  }

  /** A node of the log is alive. */
  lemma {:induction false} LogAlive(s: Table, ranks: seq<nat>, fs: seq<Pointer>, k: nat, n: nat)
    requires TableOk(s, ranks) && VecAlive(s, fs) && VecIn(s.g, fs) && k <= |fs| && Shape(s.g, ranks)
    requires n in ReachAll(s.g, ranks, fs, k)
    ensures Alive(s.g, s.refs, Edge(n, false)) && Alive(s.g, s.refs, Edge(n, true))
  {
    if n in ReachAll(s.g, ranks, fs, k - 1) {
      LogAlive(s, ranks, fs, k - 1, n);
    } else {
      Support.ReachAlive(s, ranks, fs[k - 1].e, n);
    }
  }

  /** print_action on every node. */
  method PrintSubs(m: Manager, fl: Fields, opt: Options, fs: seq<Pointer>, log: seq<Edge>, ghost subs: seq<Edge>)
    returns (defs: seq<Def>)
    requires m.Valid() && Named(fl.Val(), m.nodes, fs, subs) && Indexed(fl.Val(), log, |log|) && subs == SubsOf(fl.Val(), log)
    requires forall i {:trigger log[i]} :: 0 <= i < |log| ==>
      Alive(m.nodes, m.refs, Edge(log[i].node, false)) && Alive(m.nodes, m.refs, Edge(log[i].node, true))
    modifies m`cache
    ensures m.Valid() && |defs| == |subs| && SubDefs(fl.Val(), m.nodes, m.ranks, Value(m.den, fs, subs), subs, defs)
    ensures defs == Replay(PrintAction(m.ranks, fl.Val(), opt), m.nodes, [], log)
  {
    hide TableOk, CacheOk, Inverse, Named, DefOk, Value, SubDefs, Printed, Means, Tokens;
    ghost var nm, env := fl.Val(), Value(m.den, fs, subs);
    defs := [];
    NoDefs(nm, m.nodes, m.ranks, env, fs, subs);
    NamedMeans(nm, m.nodes, m.den, fs, subs);
    for i := 0 to |log|
      invariant m.Valid() && |defs| == |SubsOf(nm, log[..i])| && SubDefs(nm, m.nodes, m.ranks, env, subs, defs)
      invariant defs == Replay(PrintAction(m.ranks, nm, opt), m.nodes, [], log[..i])
    {
      var n := log[i].node;
      ReplayNext(PrintAction(m.ranks, nm, opt), m.nodes, [], log, i);
      SubsNext(nm, log, i);
      assert Alive(m.nodes, m.refs, Edge(n, n in fl.inv));
      if n != 0 && n in fl.flagged && n !in fl.root {
        var e := Edge(n, n in fl.inv);
        SubsPrefix(nm, log, i);
        SubValue(m.den, fs, subs, |defs|);
        var ts := HandleAux(m, fl, opt, e, NO_OP, true, env, TERMID);
        PrintedDef(nm, m.nodes, m.ranks, env, e, ts, Ref(false, fl.index[n]));
        SubDefsNext(nm, m.nodes, m.ranks, env, subs, defs, Def(Ref(false, fl.index[n]), ts));
        defs := defs + [Def(Ref(false, fl.index[n]), ts)];
      }
    }
    assert log[..|log|] == log;
  }

  lemma SubValue(den: Den, fs: seq<Pointer>, subs: seq<Edge>, i: nat)
    requires i < |subs|
    ensures Value(den, fs, subs)(Ref(false, i)) == Sem(den, subs[i])
  {
  }

  lemma SubDefsNext(nm: Names, g: Nodes, ranks: seq<nat>, env: Env, subs: seq<Edge>, defs: seq<Def>, d: Def)
    requires SubDefs(nm, g, ranks, env, subs, defs) && |defs| < |subs| && d.r == Ref(false, |defs|)
    requires DefOk(nm, g, ranks, env, subs[|defs|], d)
    ensures SubDefs(nm, g, ranks, env, subs, defs + [d])
  {
  }

  /** An element whose node goes by another name. */
  ghost predicate Alias(nm: Names, g: Nodes, fs: seq<Pointer>, k: nat)
    requires k < |fs| && fs[k].To?
  {
    var n := fs[k].e.node;
    n in nm.flagged && n in g && n in nm.index && RefOf(nm, n) != Ref(true, k)
  }

  /** How far down the equation of a name is. */
  ghost function Height(nm: Names, g: Nodes, ranks: seq<nat>, fs: seq<Pointer>, subs: seq<Edge>): Ref -> nat {
    (r: Ref) =>
      if r.root then
        if r.index < |fs| && fs[r.index].To? then Tall(g, ranks, fs[r.index].e) + (if Alias(nm, g, fs, r.index) then 1 else 0)
        else 0
      else if r.index < |subs| then Tall(g, ranks, subs[r.index]) else 0
  }

  ghost function Tall(g: Nodes, ranks: seq<nat>, e: Edge): nat {
    if Rank(g, ranks, e) <= TERMID then 2 * (TERMID - Rank(g, ranks, e)) else 0
  }

  lemma CalledHeight(nm: Names, g: Nodes, ranks: seq<nat>, fs: seq<Pointer>, subs: seq<Edge>, r: Ref, n: nat)
    requires Named(nm, g, fs, subs) && Called(nm, g, r, n)
    ensures Height(nm, g, ranks, fs, subs)(r) == Tall(g, ranks, Edge(n, false))
    ensures if r.root then r.index < |fs| && fs[r.index].To? else r.index < |subs|
  {
    assert NameOk(nm, fs, subs, n);
    assert Rank(g, ranks, Edge(n, true)) == Rank(g, ranks, Edge(n, false));
  }

  lemma UseHeight(nm: Names, g: Nodes, ranks: seq<nat>, fs: seq<Pointer>, subs: seq<Edge>, e: Edge, of: Ref, r: Ref)
    requires Shape(g, ranks) && Named(nm, g, fs, subs) && MayUse(nm, g, ranks, e, of, r) && In(g, e)
    requires if of.root then of.index < |fs| && fs[of.index] == To(e) else of.index < |subs| && subs[of.index] == e
    ensures Height(nm, g, ranks, fs, subs)(r) < Height(nm, g, ranks, fs, subs)(of)
    ensures if r.root then r.index < |fs| && fs[r.index].To? else r.index < |subs|
  {
    RankBound(g, ranks, e);
    if CalledFrom(nm, g, ranks, r, Rank(g, ranks, e) + 1) {
      var n :| Called(nm, g, r, n) && Rank(g, ranks, Edge(n, false)) >= Rank(g, ranks, e) + 1;
      CalledHeight(nm, g, ranks, fs, subs, r, n);
      RankBound(g, ranks, Edge(n, false));
    } else {
      CalledHeight(nm, g, ranks, fs, subs, r, e.node);
    }
  }

  /** All equations: those of the elements and those of the sub-expressions, in some order. */
  ghost predicate AllDefs(defs: seq<Def>, roots: seq<Def>, subs: seq<Def>) {
    defs == roots + subs || defs == subs + roots
  }

  lemma InAll(defs: seq<Def>, roots: seq<Def>, subs: seq<Def>)
    requires AllDefs(defs, roots, subs)
    ensures forall d :: d in defs <==> d in roots || d in subs
  {
  }

  /** An equation that reads as something is not void. */
  lemma NotVoid(env: Env, ts: seq<Token>, f: Fn)
    requires ReadOr(env, ts) == Got(f, [])
    ensures ts != [TVoid]
  {
    assert Atom(env, [TVoid]).Fail?;
  }

  /** Everything printed: the equations are true, acyclic, and complete. */
  lemma PrintedAll(nm: Names, g: Nodes, ranks: seq<nat>, den: Den, fs: seq<Pointer>, subs: seq<Edge>,
                   rd: seq<Def>, sd: seq<Def>, defs: seq<Def>)
    requires Shape(g, ranks) && Named(nm, g, fs, subs) && VecIn(g, fs) && AllDefs(defs, rd, sd)
    requires forall i {:trigger subs[i]} :: 0 <= i < |subs| ==> In(g, subs[i])
    requires |rd| == |fs| && RootDefs(nm, g, ranks, Value(den, fs, subs), fs, rd)
    requires |sd| == |subs| && SubDefs(nm, g, ranks, Value(den, fs, subs), subs, sd)
    ensures Solves(Value(den, fs, subs), defs) && Acyclic(defs, Height(nm, g, ranks, fs, subs))
  {
    var env, height := Value(den, fs, subs), Height(nm, g, ranks, fs, subs);
    InAll(defs, rd, sd);
    forall i | 0 <= i < |defs|
      ensures Satisfies(env, defs[i]) && Grounded(defs, height, defs[i])
    {
      assert defs[i] in defs;
      if defs[i] in rd {
        var k :| 0 <= k < |rd| && rd[k] == defs[i];
        RootGrounded(nm, g, ranks, den, fs, subs, rd, sd, defs, k);
      } else {
        var k :| 0 <= k < |sd| && sd[k] == defs[i];
        SubGrounded(nm, g, ranks, den, fs, subs, rd, sd, defs, k);
      }
    }
  }

  lemma Defined(g: Nodes, ranks: seq<nat>, nm: Names, env: Env, fs: seq<Pointer>, subs: seq<Edge>,
                rd: seq<Def>, sd: seq<Def>, defs: seq<Def>, r: Ref)
    requires AllDefs(defs, rd, sd) && |rd| == |fs| && |sd| == |subs|
    requires RootDefs(nm, g, ranks, env, fs, rd) && SubDefs(nm, g, ranks, env, subs, sd)
    requires if r.root then r.index < |fs| && fs[r.index].To? else r.index < |subs|
    ensures exists i {:trigger defs[i]} :: 0 <= i < |defs| && defs[i].r == r && defs[i].ts != [TVoid]
  {
    InAll(defs, rd, sd);
    var d := if r.root then rd[r.index] else sd[r.index];
    assert d in defs;
    NotVoid(env, d.ts, env(d.r));
  }

  lemma RootGrounded(nm: Names, g: Nodes, ranks: seq<nat>, den: Den, fs: seq<Pointer>, subs: seq<Edge>,
                     rd: seq<Def>, sd: seq<Def>, defs: seq<Def>, k: nat)
    requires Shape(g, ranks) && Named(nm, g, fs, subs) && VecIn(g, fs) && AllDefs(defs, rd, sd)
    requires |rd| == |fs| && RootDefs(nm, g, ranks, Value(den, fs, subs), fs, rd)
    requires |sd| == |subs| && SubDefs(nm, g, ranks, Value(den, fs, subs), subs, sd)
    requires k < |rd|
    ensures Satisfies(Value(den, fs, subs), rd[k]) && Grounded(defs, Height(nm, g, ranks, fs, subs), rd[k])
  {
    var env, d := Value(den, fs, subs), rd[k];
    if fs[k].Void? {
      assert RefsIn([TVoid]) == {};
    } else {
      forall r | r in RefsIn(d.ts)
        ensures Height(nm, g, ranks, fs, subs)(r) < Height(nm, g, ranks, fs, subs)(d.r)
        ensures exists i {:trigger defs[i]} :: 0 <= i < |defs| && defs[i].r == r && defs[i].ts != [TVoid]
      {
        UseHeight(nm, g, ranks, fs, subs, fs[k].e, d.r, r);
        Defined(g, ranks, nm, env, fs, subs, rd, sd, defs, r);
      }
    }
  }

  lemma SubGrounded(nm: Names, g: Nodes, ranks: seq<nat>, den: Den, fs: seq<Pointer>, subs: seq<Edge>,
                    rd: seq<Def>, sd: seq<Def>, defs: seq<Def>, k: nat)
    requires Shape(g, ranks) && Named(nm, g, fs, subs) && AllDefs(defs, rd, sd)
    requires forall i {:trigger subs[i]} :: 0 <= i < |subs| ==> In(g, subs[i])
    requires |rd| == |fs| && RootDefs(nm, g, ranks, Value(den, fs, subs), fs, rd)
    requires |sd| == |subs| && SubDefs(nm, g, ranks, Value(den, fs, subs), subs, sd)
    requires k < |sd|
    ensures Satisfies(Value(den, fs, subs), sd[k]) && Grounded(defs, Height(nm, g, ranks, fs, subs), sd[k])
  {
    var env, d := Value(den, fs, subs), sd[k];
    forall r | r in RefsIn(d.ts)
      ensures Height(nm, g, ranks, fs, subs)(r) < Height(nm, g, ranks, fs, subs)(d.r)
      ensures exists i {:trigger defs[i]} :: 0 <= i < |defs| && defs[i].r == r && defs[i].ts != [TVoid]
    {
      UseHeight(nm, g, ranks, fs, subs, subs[k], d.r, r);
      Defined(g, ranks, nm, env, fs, subs, rd, sd, defs, r);
    }
  }

  /** Whoever solves the equations finds the functions of the vector. */
  ghost predicate Determines(den: Den, fs: seq<Pointer>, defs: seq<Def>) {
    forall env: Env {:trigger Solves(env, defs)} :: Solves(env, defs) ==>
      forall k {:trigger fs[k]} :: 0 <= k < |fs| && fs[k].To? ==> env(Ref(true, k)) == Sem(den, fs[k].e)
  }

  /** No name has two equations. */
  ghost predicate OneEach(defs: seq<Def>) {
    forall i, j :: 0 <= i < j < |defs| ==> defs[i].r != defs[j].r
  }

  lemma SolvedIs(nm: Names, g: Nodes, ranks: seq<nat>, den: Den, fs: seq<Pointer>, subs: seq<Edge>,
                 rd: seq<Def>, sd: seq<Def>, defs: seq<Def>)
    requires AllDefs(defs, rd, sd) && |rd| == |fs| && |sd| == |subs|
    requires RootDefs(nm, g, ranks, Value(den, fs, subs), fs, rd) && SubDefs(nm, g, ranks, Value(den, fs, subs), subs, sd)
    requires Solves(Value(den, fs, subs), defs) && Acyclic(defs, Height(nm, g, ranks, fs, subs))
    ensures Determines(den, fs, defs) && OneEach(defs)
  {
    var env, height := Value(den, fs, subs), Height(nm, g, ranks, fs, subs);
    forall env': Env, k: nat | Solves(env', defs) && k < |fs| && fs[k].To?
      ensures env'(Ref(true, k)) == Sem(den, fs[k].e)
    {
      Defined(g, ranks, nm, env, fs, subs, rd, sd, defs, Ref(true, k));
      var i :| 0 <= i < |defs| && defs[i].r == Ref(true, k) && defs[i].ts != [TVoid];
      UniqueSolution(env, env', defs, height, i);
      RootValue(den, fs, subs, k);
    }
    assert forall k {:trigger rd[k]} :: 0 <= k < |rd| ==> rd[k].r == Ref(true, k);
    assert forall k {:trigger sd[k]} :: 0 <= k < |sd| ==> sd[k].r == Ref(false, k);
  }

  lemma VectorIn(s: Table, ranks: seq<nat>, fs: seq<Pointer>)
    requires TableOk(s, ranks) && VecAlive(s, fs)
    ensures Shape(s.g, ranks) && VecIn(s.g, fs) && 0 !in s.g
  {
  }

  lemma LogAllAlive(s: Table, ranks: seq<nat>, fs: seq<Pointer>, log: seq<Edge>)
    requires TableOk(s, ranks) && VecAlive(s, fs) && VecIn(s.g, fs) && Shape(s.g, ranks)
    requires NodesOf(log) == ReachAll(s.g, ranks, fs, |fs|)
    ensures forall i {:trigger log[i]} :: 0 <= i < |log| ==>
      Alive(s.g, s.refs, Edge(log[i].node, false)) && Alive(s.g, s.refs, Edge(log[i].node, true))
  {
    forall i | 0 <= i < |log|
      ensures Alive(s.g, s.refs, Edge(log[i].node, false)) && Alive(s.g, s.refs, Edge(log[i].node, true))
    {
      assert log[i].node in NodesOf(log);
      LogAlive(s, ranks, fs, |fs|, log[i].node);
    }
  }

  lemma {:induction false} SubsIn(s: Table, nm: Names, fs: seq<Pointer>, ranks: seq<nat>, log: seq<Edge>)
    requires forall i {:trigger log[i]} :: 0 <= i < |log| ==>
      Alive(s.g, s.refs, Edge(log[i].node, false)) && Alive(s.g, s.refs, Edge(log[i].node, true))
    ensures forall i {:trigger SubsOf(nm, log)[i]} :: 0 <= i < |SubsOf(nm, log)| ==> In(s.g, SubsOf(nm, log)[i])
  {
    if log != [] {
      var k := |log| - 1;
      forall i {:trigger log[..k][i]} | 0 <= i < k
        ensures Alive(s.g, s.refs, Edge(log[..k][i].node, false)) && Alive(s.g, s.refs, Edge(log[..k][i].node, true))
      {
        assert log[..k][i] == log[i];
      }
      SubsIn(s, nm, fs, ranks, log[..k]);
      assert Alive(s.g, s.refs, Edge(log[k].node, false)) && Alive(s.g, s.refs, Edge(log[k].node, true));
    }
  }
}
