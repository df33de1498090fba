/** Graph traversal without a stack: the way back is kept in the links of the nodes themselves. */
module Traverse {
  import opened Graph

  /** Marks and the log of visits. */
  datatype Trace = Trace(mark: set<nat>, log: seq<Edge>)

  /** BDD_TOGGLE_MARK */
  function Toggle(mark: set<nat>, n: nat): set<nat> {
    if n in mark then mark - {n} else mark + {n}
  }

  /** BDD_NOT_MARKED */
  predicate NotMarked(mark: set<nat>, e: Edge, v: Edge) {
    (e.node in mark) != (v.node in mark)
  }

  function Enter(v: Edge, t: Trace, post: bool): Trace {
    Trace(Toggle(t.mark, v.node), if post then t.log else t.log + [v])
  }

  function Leave(v: Edge, t: Trace, post: bool): Trace {
    if post then t.(log := t.log + [v]) else t
  }

  /** bdd_traverse_pre_rec and, with post, bdd_traverse_post_rec. */
  function Visit(g: Nodes, ranks: seq<nat>, v: Edge, t: Trace, post: bool): Trace
    requires Shape(g, ranks) && In(g, v)
    decreases TERMID - Rank(g, ranks, v), 3
  {
    Leave(v, Body(g, ranks, v, t, post), post)
  }

  /** A visit up to, but not including, the post action. */
  function Body(g: Nodes, ranks: seq<nat>, v: Edge, t: Trace, post: bool): Trace
    requires Shape(g, ranks) && In(g, v)
    decreases TERMID - Rank(g, ranks, v), 2
  {
    var t1 := Enter(v, t, post);
    if v.node in g then VisitElse(g, ranks, v, VisitThen(g, ranks, v, t1, post), post) else t1
  }

  function VisitThen(g: Nodes, ranks: seq<nat>, v: Edge, t: Trace, post: bool): Trace
    requires Shape(g, ranks) && v.node in g
    decreases TERMID - Rank(g, ranks, v), 1
  {
    LinkRanks(g, ranks, v);
    if NotMarked(t.mark, g[v.node].thn, v) then Visit(g, ranks, g[v.node].thn, t, post) else t
  }

  function VisitElse(g: Nodes, ranks: seq<nat>, v: Edge, t: Trace, post: bool): Trace
    requires Shape(g, ranks) && v.node in g
    decreases TERMID - Rank(g, ranks, v), 1
  {
    LinkRanks(g, ranks, v);
    if NotMarked(t.mark, g[v.node].els, v) then Visit(g, ranks, g[v.node].els, t, post) else t
  }

  lemma LinkRanks(g: Nodes, ranks: seq<nat>, v: Edge)
    requires Shape(g, ranks) && v.node in g
    ensures In(g, g[v.node].thn) && In(g, g[v.node].els)
    ensures Rank(g, ranks, v) < Rank(g, ranks, g[v.node].thn) <= TERMID
    ensures Rank(g, ranks, v) < Rank(g, ranks, g[v.node].els) <= TERMID
  {
    assert NodeOk(g, ranks, v.node);
    RankBound(g, ranks, g[v.node].thn);
    RankBound(g, ranks, g[v.node].els);
  }

  /** The nodes reachable from an edge. */
  function Reach(g: Nodes, ranks: seq<nat>, v: Edge): set<nat>
    requires Shape(g, ranks) && In(g, v)
    decreases TERMID - Rank(g, ranks, v)
  {
    if v.node in g then
      LinkRanks(g, ranks, v);
      {v.node} + Reach(g, ranks, g[v.node].thn) + Reach(g, ranks, g[v.node].els)
    else {v.node}
  }

  lemma {:induction false} ReachSelf(g: Nodes, ranks: seq<nat>, v: Edge)
    requires Shape(g, ranks) && In(g, v)
    ensures v.node in Reach(g, ranks, v)
  {
  }

  /** Whatever is reachable ranks no higher, and everything reachable from it is reachable. */
  lemma {:induction false} ReachClosed(g: Nodes, ranks: seq<nat>, v: Edge, e: Edge)
    requires Shape(g, ranks) && In(g, v) && In(g, e) && e.node in Reach(g, ranks, v)
    ensures Rank(g, ranks, e) >= Rank(g, ranks, v)
    ensures Reach(g, ranks, e) <= Reach(g, ranks, v)
    decreases TERMID - Rank(g, ranks, v)
  {
    if v.node in g && e.node != v.node {
      LinkRanks(g, ranks, v);
      var t, f := g[v.node].thn, g[v.node].els;
      if e.node in Reach(g, ranks, t) {
        ReachClosed(g, ranks, t, e);
      } else {
        ReachClosed(g, ranks, f, e);
      }
    }
  }

  /** The marks of m with those of the nodes of s flipped. */
  function Flip(m: set<nat>, s: set<nat>): set<nat> {
    (m - s) + (s - m)
  }

  function NodesOf(log: seq<Edge>): set<nat> {
    set i {:trigger log[i]} | 0 <= i < |log| :: log[i].node
  }

  ghost predicate Once(log: seq<Edge>) {
    forall i, j :: 0 <= i < j < |log| ==> log[i].node != log[j].node
  }

  ghost predicate Complete(g: Nodes, ranks: seq<nat>, done: set<nat>, e: Edge)
    requires Shape(g, ranks) && In(g, e)
  {
    Reach(g, ranks, e) <= done
  }

  /** What has been visited from rank r on has been visited with all that is below it. */
  ghost predicate Settled(g: Nodes, ranks: seq<nat>, done: set<nat>, r: nat)
    requires Shape(g, ranks)
  {
    forall e: Edge {:trigger e.node in done} ::
      e.node in done && In(g, e) && Rank(g, ranks, e) >= r ==> Complete(g, ranks, done, e)
  }

  /** Before the visits, the nodes of area all have mark c; those of done have been visited. */
  ghost predicate Marked(area: set<nat>, m0: set<nat>, c: bool, done: set<nat>, mark: set<nat>) {
    && (forall n {:trigger n in area} :: n in area ==> (n in m0) == c)
    && done <= area && mark == Flip(m0, done)
  }

  lemma MarkedTest(area: set<nat>, m0: set<nat>, c: bool, done: set<nat>, mark: set<nat>, e: Edge, v: Edge)
    requires Marked(area, m0, c, done, mark) && e.node in area && v.node in done
    ensures NotMarked(mark, e, v) <==> e.node !in done
  {
  }

  lemma MarkedEnter(area: set<nat>, m0: set<nat>, c: bool, done: set<nat>, mark: set<nat>, n: nat)
    requires Marked(area, m0, c, done, mark) && n in area && n !in done
    ensures Marked(area, m0, c, done + {n}, Toggle(mark, n))
  {
  }

  lemma LogJoin(a: seq<Edge>, b: seq<Edge>)
    ensures NodesOf(a + b) == NodesOf(a) + NodesOf(b)
    ensures Once(a) && Once(b) && NodesOf(a) !! NodesOf(b) ==> Once(a + b)
  {
    forall n | n in NodesOf(a) + NodesOf(b)
      ensures n in NodesOf(a + b)
    {
      if n in NodesOf(a) {
        var i :| 0 <= i < |a| && a[i].node == n;
        assert (a + b)[i].node == n;
      } else {
        var i :| 0 <= i < |b| && b[i].node == n;
        assert (a + b)[|a| + i].node == n;
      }
    }
    if Once(a) && Once(b) && NodesOf(a) !! NodesOf(b) {
      forall i, j | 0 <= i < j < |a + b|
        ensures (a + b)[i].node != (a + b)[j].node
      {
        if i < |a| <= j {
          assert a[i].node in NodesOf(a) && b[j - |a|].node in NodesOf(b);
        }
      }
    }
  }

  /** A visit visits what is reachable and not visited yet, each node once, and flips its mark. */
  lemma {:induction false} VisitOk(g: Nodes, ranks: seq<nat>, area: set<nat>, m0: set<nat>, c: bool,
                                   v: Edge, t: Trace, post: bool, done: set<nat>)
    returns (added: seq<Edge>)
    requires Shape(g, ranks) && In(g, v) && Reach(g, ranks, v) <= area
    requires v.node !in done && Settled(g, ranks, done, Rank(g, ranks, v))
    requires Marked(area, m0, c, done, t.mark)
    ensures Marked(area, m0, c, done + Reach(g, ranks, v), Visit(g, ranks, v, t, post).mark)
    ensures Visit(g, ranks, v, t, post).log == t.log + added
    ensures Once(added) && NodesOf(added) == Reach(g, ranks, v) - done
    decreases TERMID - Rank(g, ranks, v), 1
  {
    hide Settled, Marked;
    ReachSelf(g, ranks, v);
    MarkedEnter(area, m0, c, done, t.mark, v.node);
    var t1 := Enter(v, t, post);
    var done1 := done + {v.node};
    LogOne(v);
    if v.node in g {
      var a, b := VisitKids(g, ranks, area, m0, c, v, t1, post, done1, done);
      LogJoin(a, b);
      LogJoin([v], a + b);
      LogJoin(a + b, [v]);
      added := if post then a + b + [v] else [v] + (a + b);
    } else {
      added := [v];
    }
  }

  lemma SameEnd(a: seq<Edge>, x: seq<Edge>, y: seq<Edge>)
    requires a + x == a + y
    ensures x == y
  {
    assert x == (a + x)[|a|..] && y == (a + y)[|a|..];
  }

  lemma LogOne(v: Edge)
    ensures NodesOf([v]) == {v.node} && Once([v])
  {
    assert [v][0].node in NodesOf([v]);
  }

  lemma VisitKids(g: Nodes, ranks: seq<nat>, area: set<nat>, m0: set<nat>, c: bool, v: Edge, t1: Trace,
                  post: bool, done1: set<nat>, done: set<nat>)
    returns (a: seq<Edge>, b: seq<Edge>)
    requires Shape(g, ranks) && v.node in g && Reach(g, ranks, v) <= area
    requires v.node !in done && Settled(g, ranks, done, Rank(g, ranks, v))
    requires done1 == done + {v.node} && Marked(area, m0, c, done1, t1.mark)
    ensures var t3 := VisitElse(g, ranks, v, VisitThen(g, ranks, v, t1, post), post);
      && Marked(area, m0, c, done + Reach(g, ranks, v), t3.mark)
      && t3.log == t1.log + (a + b)
    ensures Once(a) && Once(b) && NodesOf(a) !! NodesOf(b)
    ensures NodesOf(a) + NodesOf(b) == Reach(g, ranks, v) - done1
    decreases TERMID - Rank(g, ranks, v), 0
  {
    hide Marked, Reach, Settled, Once, NodesOf, Shape;
    LinkRanks(g, ranks, v);
    ReachSplit(g, ranks, v);
    LogNone();
    var T, E := g[v.node].thn, g[v.node].els;
    var r := Rank(g, ranks, v);
    ReachSelf(g, ranks, T);
    ReachSelf(g, ranks, E);
    SettledAfter(g, ranks, done, v);
    MarkedTest(area, m0, c, done1, t1.mark, T, v);
    var done2 := done1 + Reach(g, ranks, T);
    a, b := [], [];
    if T.node !in done1 {
      a := VisitOk(g, ranks, area, m0, c, T, t1, post, done1);
    } else {
      CompleteOf(g, ranks, done1, r + 1, T);
      assert done2 == done1;
    }
    var t2 := VisitThen(g, ranks, v, t1, post);
    SettledReach(g, ranks, done1, T, r + 1);
    MarkedTest(area, m0, c, done2, t2.mark, E, v);
    if E.node !in done2 {
      b := VisitOk(g, ranks, area, m0, c, E, t2, post, done2);
    } else {
      CompleteOf(g, ranks, done2, r + 1, E);
      assert done2 + Reach(g, ranks, E) == done2;
    }
    assert done + Reach(g, ranks, v) == done2 + Reach(g, ranks, E);
    NotBelowSelf(g, ranks, v);
  }

  lemma ReachSplit(g: Nodes, ranks: seq<nat>, v: Edge)
    requires Shape(g, ranks) && v.node in g
    ensures In(g, g[v.node].thn) && In(g, g[v.node].els)
    ensures Reach(g, ranks, v) == {v.node} + Reach(g, ranks, g[v.node].thn) + Reach(g, ranks, g[v.node].els)
  {
    LinkRanks(g, ranks, v);
  }

  lemma LogNone()
    ensures NodesOf([]) == {} && Once([])
  {
  }

  /** No node is reachable from its own children. */
  lemma NotBelowSelf(g: Nodes, ranks: seq<nat>, v: Edge)
    requires Shape(g, ranks) && v.node in g
    ensures In(g, g[v.node].thn) && In(g, g[v.node].els)
    ensures v.node !in Reach(g, ranks, g[v.node].thn) && v.node !in Reach(g, ranks, g[v.node].els)
  {
    LinkRanks(g, ranks, v);
    var T, E := g[v.node].thn, g[v.node].els;
    if v.node in Reach(g, ranks, T) {
      ReachClosed(g, ranks, T, v);
    }
    if v.node in Reach(g, ranks, E) {
      ReachClosed(g, ranks, E, v);
    }
  }

  lemma CompleteOf(g: Nodes, ranks: seq<nat>, done: set<nat>, r: nat, e: Edge)
    requires Shape(g, ranks) && Settled(g, ranks, done, r) && e.node in done && In(g, e)
    requires Rank(g, ranks, e) >= r
    ensures Reach(g, ranks, e) <= done
  {
    assert Complete(g, ranks, done, e);
  }

  lemma SettledHigher(g: Nodes, ranks: seq<nat>, done: set<nat>, r: nat, r': nat)
    requires Shape(g, ranks) && Settled(g, ranks, done, r) && r <= r'
    ensures Settled(g, ranks, done, r')
  {
    forall e: Edge | e.node in done && In(g, e) && Rank(g, ranks, e) >= r'
      ensures Complete(g, ranks, done, e)
    {
      assert Complete(g, ranks, done, e);
    }
  }

  /** Entering v leaves everything below v settled. */
  lemma SettledAfter(g: Nodes, ranks: seq<nat>, done: set<nat>, v: Edge)
    requires Shape(g, ranks) && In(g, v) && Settled(g, ranks, done, Rank(g, ranks, v))
    ensures Settled(g, ranks, done + {v.node}, Rank(g, ranks, v) + 1)
    ensures forall r {:trigger Settled(g, ranks, done + {v.node}, r)} ::
      r > Rank(g, ranks, v) ==> Settled(g, ranks, done + {v.node}, r)
  {
    var d := done + {v.node};
    forall e: Edge | e.node in d && In(g, e) && Rank(g, ranks, e) >= Rank(g, ranks, v) + 1
      ensures Complete(g, ranks, d, e)
    {
      assert e.node in done;
      assert Complete(g, ranks, done, e);
    }
  }

  lemma SettledReach(g: Nodes, ranks: seq<nat>, done: set<nat>, v: Edge, r: nat)
    requires Shape(g, ranks) && In(g, v) && Settled(g, ranks, done, r)
    ensures forall q {:trigger Settled(g, ranks, done + Reach(g, ranks, v), q)} ::
      q >= r ==> Settled(g, ranks, done + Reach(g, ranks, v), q)
  {
    var d := done + Reach(g, ranks, v);
    forall e: Edge | e.node in d && In(g, e) && Rank(g, ranks, e) >= r
      ensures Complete(g, ranks, d, e)
    {
      if e.node in done {
        assert Complete(g, ranks, done, e);
      } else {
        ReachClosed(g, ranks, v, e);
      }
    }
  }

  /** From uniform marks a traversal visits exactly the reachable nodes, each once, and flips
      exactly their marks. */
  lemma TraversalOk(g: Nodes, ranks: seq<nat>, v: Edge, mark: set<nat>, c: bool, post: bool)
    requires Shape(g, ranks) && In(g, v)
    requires forall n :: n in Reach(g, ranks, v) ==> (n in mark) == c
    ensures var t := Visit(g, ranks, v, Trace(mark, []), post);
      && Once(t.log) && NodesOf(t.log) == Reach(g, ranks, v)
      && t.mark == Flip(mark, Reach(g, ranks, v))
  {
    assert Settled(g, ranks, {}, Rank(g, ranks, v));
    var area := Reach(g, ranks, v);
    assert Marked(area, mark, c, {}, mark);
    var added := VisitOk(g, ranks, area, mark, c, v, Trace(mark, []), post, {});
    assert {} + area == area && area - {} == area && [] + added == added;
  }

  /** One step of the way back: the edge to a node left through its ELSE link (els) or THEN link. */
  datatype Frame = Frame(e: Edge, els: bool)

  /** The frames lead from v back to the root along links of g. */
  ghost predicate Leads(g: Nodes, stack: seq<Frame>, v: Edge)
    decreases |stack|
  {
    stack != [] ==>
      var f := stack[0];
      && f.e.node in g && v == (if f.els then g[f.e.node].els else g[f.e.node].thn)
      && Leads(g, stack[1..], f.e)
  }

  /** What is still to be done when v has been handled and the frames lead back. */
  ghost function Unwind(g: Nodes, ranks: seq<nat>, stack: seq<Frame>, v: Edge, t: Trace, post: bool): Trace
    requires Shape(g, ranks) && Leads(g, stack, v)
    decreases |stack|
  {
    var t' := Leave(v, t, post);
    if stack == [] then t'
    else
      var f := stack[0];
      Unwind(g, ranks, stack[1..], f.e, if f.els then t' else VisitElse(g, ranks, f.e, t', post), post)
  }

  ghost function Parent(stack: seq<Frame>, void: Edge): Edge {
    if stack == [] then void else stack[0].e
  }

  /** A node whose link on the way down has been turned to point back. */
  function Turned(nd: Node, els: bool, back: Edge): Node {
    if els then nd.(els := back) else nd.(thn := back)
  }

  ghost function StackNodes(stack: seq<Frame>): set<nat> {
    if stack == [] then {} else {stack[0].e.node} + StackNodes(stack[1..])
  }

  /** The links and flags of the nodes on the way back. */
  ghost predicate Chain(g: Nodes, h: Nodes, flag: set<nat>, stack: seq<Frame>, void: Edge)
    decreases |stack|
  {
    stack != [] ==>
      var f := stack[0];
      && f.e.node in g && f.e.node in h
      && h[f.e.node] == Turned(g[f.e.node], f.els, Parent(stack[1..], void))
      && (f.e.node in flag <==> f.els)
      && Chain(g, h, flag, stack[1..], void)
  }

  /** Memory h is graph g with the links along the stack turned round. */
  ghost predicate Reversed(g: Nodes, ranks: seq<nat>, h: Nodes, flag: set<nat>, stack: seq<Frame>, v: Edge, void: Edge) {
    && Shape(g, ranks) && void.node !in g && void.node != 0 && In(g, v) && h.Keys == g.Keys
    && Leads(g, stack, v) && Chain(g, h, flag, stack, void) && flag <= StackNodes(stack)
    && (forall n {:trigger h[n]} :: n in g && n !in StackNodes(stack) ==> h[n] == g[n])
  }

  /** The nodes on the way back rank above v. */
  lemma {:induction false} StackRanks(g: Nodes, ranks: seq<nat>, stack: seq<Frame>, v: Edge, n: nat, neg: bool)
    requires Shape(g, ranks) && In(g, v) && Leads(g, stack, v) && n in StackNodes(stack)
    ensures n in g && Rank(g, ranks, Edge(n, neg)) < Rank(g, ranks, v)
    decreases |stack|
  {
    var f := stack[0];
    LinkRanks(g, ranks, f.e);
    if n != f.e.node {
      StackRanks(g, ranks, stack[1..], f.e, n, neg);
    }
  }

  lemma {:induction false} ChainFrame(g: Nodes, h: Nodes, flag: set<nat>, h': Nodes, flag': set<nat>,
                                      stack: seq<Frame>, void: Edge)
    requires Chain(g, h, flag, stack, void) && h'.Keys == h.Keys
    requires forall n {:trigger n in StackNodes(stack)} :: n in StackNodes(stack) && n in h ==>
      h'[n] == h[n] && (n in flag <==> n in flag')
    ensures Chain(g, h', flag', stack, void)
    decreases |stack|
  {
    if stack != [] {
      assert stack[0].e.node in StackNodes(stack);
      forall n | n in StackNodes(stack[1..]) && n in h
        ensures h'[n] == h[n] && (n in flag <==> n in flag')
      {
        assert n in StackNodes(stack);
      }
      ChainFrame(g, h, flag, h', flag', stack[1..], void);
    }
  }

  lemma NotOnStack(g: Nodes, ranks: seq<nat>, stack: seq<Frame>, v: Edge)
    requires Shape(g, ranks) && In(g, v) && Leads(g, stack, v)
    ensures v.node !in StackNodes(stack)
  {
    if v.node in StackNodes(stack) {
      StackRanks(g, ranks, stack, v, v.node, v.neg);
    }
  }

  /** MOVE_DOWN_THEN and MOVE_DOWN_ELSE. */
  lemma DownOk(g: Nodes, ranks: seq<nat>, h: Nodes, flag: set<nat>, stack: seq<Frame>, v: Edge, void: Edge, els: bool)
    requires Reversed(g, ranks, h, flag, stack, v, void) && v.node in g
    ensures h[v.node] == g[v.node]
    ensures var h' := h[v.node := Turned(g[v.node], els, Parent(stack, void))];
      var flag' := if els then flag + {v.node} else flag - {v.node};
      Reversed(g, ranks, h', flag', [Frame(v, els)] + stack, if els then g[v.node].els else g[v.node].thn, void)
  {
    NotOnStack(g, ranks, stack, v);
    LinkRanks(g, ranks, v);
    var h' := h[v.node := Turned(g[v.node], els, Parent(stack, void))];
    var flag' := if els then flag + {v.node} else flag - {v.node};
    var stack' := [Frame(v, els)] + stack;
    assert stack'[1..] == stack;
    ChainFrame(g, h, flag, h', flag', stack, void);
    assert StackNodes(stack') == {v.node} + StackNodes(stack);
  }

  /** MOVE_UP_AND_RESTART2 */
  lemma UpOk(g: Nodes, ranks: seq<nat>, h: Nodes, flag: set<nat>, stack: seq<Frame>, v: Edge, void: Edge)
    requires Reversed(g, ranks, h, flag, stack, v, void) && stack != []
    ensures var f := stack[0];
      && f.e.node in g && f.e.node in h && (f.e.node in flag <==> f.els)
      && (if f.els then h[f.e.node].els else h[f.e.node].thn) == Parent(stack[1..], void)
      && Turned(h[f.e.node], f.els, v) == g[f.e.node]
      && Reversed(g, ranks, h[f.e.node := g[f.e.node]], flag - {f.e.node}, stack[1..], f.e, void)
  {
    var f := stack[0];
    NotOnStack(g, ranks, stack[1..], f.e);
    var h' := h[f.e.node := g[f.e.node]];
    ChainFrame(g, h, flag, h', flag - {f.e.node}, stack[1..], void);
    assert StackNodes(stack) == {f.e.node} + StackNodes(stack[1..]);
  }

  /** Every node on the way back leads to v. */
  lemma {:induction false} StackReach(g: Nodes, ranks: seq<nat>, stack: seq<Frame>, v: Edge, n: nat)
    requires Shape(g, ranks) && In(g, v) && Leads(g, stack, v) && n in StackNodes(stack)
    ensures n in g && v.node in Reach(g, ranks, Edge(n, false))
    decreases |stack|
  {
    var f := stack[0];
    LinkRanks(g, ranks, f.e);
    ReachSelf(g, ranks, v);
    var up := Edge(f.e.node, false);
    LinkRanks(g, ranks, up);
    assert v.node in Reach(g, ranks, up);
    if n != f.e.node {
      StackReach(g, ranks, stack[1..], f.e, n);
      ReachClosed(g, ranks, Edge(n, false), up);
    }
  }

  /** The traversal has not left the area. */
  ghost predicate Inside(area: set<nat>, stack: seq<Frame>, v: Edge) {
    v.node in area && StackNodes(stack) <= area
  }

  /** No link leads out of the area. */
  ghost predicate Closed(g: Nodes, area: set<nat>) {
    forall n {:trigger g[n]} :: n in area && n in g ==> g[n].thn.node in area && g[n].els.node in area
  }

  lemma ReachIsClosed(g: Nodes, ranks: seq<nat>, root: Edge)
    requires Shape(g, ranks) && In(g, root)
    ensures Closed(g, Reach(g, ranks, root)) && root.node in Reach(g, ranks, root)
  {
    ReachSelf(g, ranks, root);
    forall n | n in Reach(g, ranks, root) && n in g
      ensures g[n].thn.node in Reach(g, ranks, root) && g[n].els.node in Reach(g, ranks, root)
    {
      ReachClosed(g, ranks, root, Edge(n, false));
      ReachSplit(g, ranks, Edge(n, false));
      ReachSelf(g, ranks, g[n].thn);
      ReachSelf(g, ranks, g[n].els);
    }
  }

  /** What an action called on v may see of graph g: only proper ancestors of v in the area can be
      different. */
  ghost predicate Intact(g: Nodes, ranks: seq<nat>, area: set<nat>, h: Nodes, v: Edge)
    requires Shape(g, ranks)
  {
    && h.Keys == g.Keys
    && (forall n {:trigger h[n]} :: n in g && h[n] != g[n] ==>
          n in area && Rank(g, ranks, Edge(n, false)) < Rank(g, ranks, v) && v.node in Reach(g, ranks, Edge(n, false)))
  }

  lemma ReversedIntact(g: Nodes, ranks: seq<nat>, area: set<nat>, h: Nodes, flag: set<nat>, stack: seq<Frame>, v: Edge, void: Edge)
    requires Reversed(g, ranks, h, flag, stack, v, void) && Inside(area, stack, v)
    ensures Shape(g, ranks) && In(g, v) && Intact(g, ranks, area, h, v)
  {
    forall n | n in g && h[n] != g[n]
      ensures n in area && Rank(g, ranks, Edge(n, false)) < Rank(g, ranks, v) && v.node in Reach(g, ranks, Edge(n, false))
    {
      assert n in StackNodes(stack);
      StackRanks(g, ranks, stack, v, n, false);
      StackReach(g, ranks, stack, v, n);
    }
  }

  /** Everything that can be reached from v is as it was. */
  lemma IntactBelow(g: Nodes, ranks: seq<nat>, area: set<nat>, h: Nodes, v: Edge, n: nat)
    requires Shape(g, ranks) && In(g, v) && Intact(g, ranks, area, h, v) && n in Reach(g, ranks, v) && n in g
    ensures n in h && h[n] == g[n]
  {
    ReachClosed(g, ranks, v, Edge(n, false));
  }

  /** What an action does to everything but links, marks and flags, given what it sees of the links. */
  type Action<!S> = (Nodes, Edge, S) -> S

  /** On the nodes of the area, in any state that meets inv, the action does not notice that links of
      ancestors are different, and it keeps inv. */
  ghost predicate Local<S(!new)>(act: Action<S>, g: Nodes, ranks: seq<nat>, area: set<nat>, inv: S -> bool)
    requires Shape(g, ranks)
  {
    forall h: Nodes, v: Edge, s: S {:trigger act(h, v, s), Intact(g, ranks, area, h, v)} ::
      v.node in area && In(g, v) && inv(s) && Intact(g, ranks, area, h, v) ==> act(h, v, s) == act(g, v, s) && inv(act(g, v, s))
  }

  /** All nodes that can be reached are as in g. */
  ghost predicate SameBelow(g: Nodes, ranks: seq<nat>, h: Nodes, v: Edge)
    requires Shape(g, ranks) && In(g, v)
  {
    forall n {:trigger n in Reach(g, ranks, v)} {:trigger h[n]} :: n in Reach(g, ranks, v) ==>
      (n in h <==> n in g) && (n in g ==> h[n] == g[n])
  }

  /** The action looks at nothing but the nodes that can be reached. */
  ghost predicate LooksBelow<S(!new)>(act: Action<S>, g: Nodes, ranks: seq<nat>)
    requires Shape(g, ranks)
  {
    forall h: Nodes, v: Edge, s: S {:trigger act(h, v, s), In(g, v)} ::
      In(g, v) && SameBelow(g, ranks, h, v) ==> act(h, v, s) == act(g, v, s)
  }

  /** Such an action is local wherever and in whatever state. */
  lemma BelowIsLocal<S(!new)>(act: Action<S>, g: Nodes, ranks: seq<nat>, area: set<nat>)
    requires Shape(g, ranks) && LooksBelow(act, g, ranks)
    ensures Local(act, g, ranks, area, (s: S) => true)
  {
    forall h: Nodes, v: Edge, s: S | v.node in area && In(g, v) && Intact(g, ranks, area, h, v)
      ensures act(h, v, s) == act(g, v, s)
    {
      forall n | n in Reach(g, ranks, v)
        ensures (n in h <==> n in g) && (n in g ==> h[n] == g[n])
      {
        if n in g {
          IntactBelow(g, ranks, area, h, v, n);
        }
      }
      assert SameBelow(g, ranks, h, v);
    }
  }

  /** The actions of a log, one after the other, all on the graph as it is outside traversals. */
  function Replay<S>(act: Action<S>, g: Nodes, s: S, log: seq<Edge>): S {
    if log == [] then s else act(g, log[|log| - 1], Replay(act, g, s, log[..|log| - 1]))
  }

  lemma ReplayNext<S>(act: Action<S>, g: Nodes, s: S, log: seq<Edge>, k: nat)
    requires k < |log|
    ensures Replay(act, g, s, log[..k + 1]) == act(g, log[k], Replay(act, g, s, log[..k]))
  {
    assert log[..k + 1][..k] == log[..k];
  }

  /** The actions called since the log was log0 have done what they would do outside the traversal. */
  ghost predicate Acted<S(!new)>(m: Memory<S>, act: Action<S>, g: Nodes, inv: S -> bool, s0: S, log0: seq<Edge>)
    reads m
  {
    log0 <= m.log && m.acc == Replay(act, g, s0, m.log[|log0|..]) && inv(m.acc)
  }

  /** The call of the action. */
  method Act<S(!new)>(m: Memory<S>, v: Edge, act: Action<S>, ghost g: Nodes, ghost ranks: seq<nat>, ghost stack: seq<Frame>,
                      ghost area: set<nat>, ghost inv: S -> bool, ghost s0: S, ghost log0: seq<Edge>)
    requires Reversed(g, ranks, m.links, m.flag, stack, v, m.void) && Inside(area, stack, v)
    requires Shape(g, ranks) && Local(act, g, ranks, area, inv) && Acted(m, act, g, inv, s0, log0)
    modifies m`log, m`acc
    ensures m.log == old(m.log) + [v] && Acted(m, act, g, inv, s0, log0)
  {
    ReversedIntact(g, ranks, area, m.links, m.flag, stack, v, m.void);
    hide Reversed, Intact, Shape, Local;
    ghost var part, s := m.log[|log0|..], m.acc;
    LocalAt(act, g, ranks, area, inv, m.links, v, s);
    m.acc := act(m.links, v, m.acc);
    m.log := m.log + [v];
    assert m.log[|log0|..] == part + [v] && (part + [v])[..|part|] == part;
  }

  lemma LocalAt<S(!new)>(act: Action<S>, g: Nodes, ranks: seq<nat>, area: set<nat>, inv: S -> bool, h: Nodes, v: Edge, s: S)
    requires Shape(g, ranks) && Local(act, g, ranks, area, inv) && Intact(g, ranks, area, h, v) && v.node in area && In(g, v) && inv(s)
    ensures act(h, v, s) == act(g, v, s) && inv(act(g, v, s))
  {
    hide Intact;
  }

  /** The node fields a traversal works on, and what its actions work on. */
  class Memory<S(!new)> {
    var acc: S             // the state the actions change
    var links: Nodes       // then_link and else_link of every node
    var mark: set<nat>     // the nodes with the mark bit set
    var flag: set<nat>     // the nodes with the flag bit set
    var log: seq<Edge>     // the calls of the action so far
    const void: Edge       // BDD_VOID, the null pointer

    ghost function Visits(): Trace
      reads this
    {
      Trace(mark, log)
    }

    constructor (links: Nodes, void: Edge, acc: S)
      requires void.node !in links && void.node != 0
      ensures this.links == links && this.void == void && mark == {} && flag == {} && log == [] && this.acc == acc
    {
      this.links, this.void, this.acc := links, void, acc;
      mark, flag, log := {}, {}, [];
    }
  }

  /** The labels of the traversal procedure. */
  datatype Label = Restart | Restart2 | Back

  /** What the rest of the run will add to the present trace. */
  ghost function Remaining(g: Nodes, ranks: seq<nat>, at: Label, stack: seq<Frame>, v: Edge, t: Trace, post: bool): Trace
    requires Shape(g, ranks) && In(g, v) && Leads(g, stack, v) && (at == Restart2 ==> v.node in g)
  {
    match at
    case Restart => Unwind(g, ranks, stack, v, Body(g, ranks, v, t, post), post)
    case Restart2 => Unwind(g, ranks, stack, v, VisitElse(g, ranks, v, t, post), post)
    case Back => Unwind(g, ranks, stack, v, t, post)
  }

  ghost predicate Running<S(!new)>(m: Memory<S>, g: Nodes, ranks: seq<nat>, area: set<nat>, at: Label, v: Edge, b: Edge,
                          stack: seq<Frame>, c: bool, post: bool, total: Trace)
    reads m
  {
    && Inside(area, stack, v) && Closed(g, area)
    && Reversed(g, ranks, m.links, m.flag, stack, v, m.void) && b == Parent(stack, m.void)
    && (at == Restart2 ==> v.node in g)
    && Remaining(g, ranks, at, stack, v, m.Visits(), post) == total
    && (v.node in m.mark) == (if at == Restart then c else !c)
    && (forall n {:trigger n in StackNodes(stack)} :: n in StackNodes(stack) ==> (n in m.mark) == !c)
  }

  /** The nodes not visited yet. */
  ghost function Fresh(g: Nodes, mark: set<nat>, c: bool): set<nat> {
    set n | n in g.Keys + {0} && (n in mark) == c
  }

  /** MOVE_DOWN_THEN(v), MOVE_DOWN_ELSE(v) */
  method MoveDown<S(!new)>(m: Memory<S>, v: Edge, b: Edge, els: bool, ghost g: Nodes, ghost ranks: seq<nat>, ghost stack: seq<Frame>)
    returns (v': Edge, b': Edge)
    requires Reversed(g, ranks, m.links, m.flag, stack, v, m.void) && b == Parent(stack, m.void) && v.node in g
    modifies m`links, m`flag
    ensures b' == v && v' == (if els then g[v.node].els else g[v.node].thn)
    ensures Reversed(g, ranks, m.links, m.flag, [Frame(v, els)] + stack, v', m.void)
  {
    hide Reversed, Shape;
    DownOk(g, ranks, m.links, m.flag, stack, v, m.void, els);
    ReversedKeys(g, ranks, m.links, m.flag, stack, v, m.void);
    var nd := m.links[v.node];
    v' := if els then nd.els else nd.thn;
    m.links := m.links[v.node := Turned(nd, els, b)];
    m.flag := if els then m.flag + {v.node} else m.flag - {v.node};
    b' := v;
  }

  lemma ReversedKeys(g: Nodes, ranks: seq<nat>, h: Nodes, flag: set<nat>, stack: seq<Frame>, v: Edge, void: Edge)
    requires Reversed(g, ranks, h, flag, stack, v, void)
    ensures h.Keys == g.Keys && Shape(g, ranks) && In(g, v) && Leads(g, stack, v)
    ensures Parent(stack, void) == void <==> stack == []
  {
  }

  lemma UnwindDown(g: Nodes, ranks: seq<nat>, stack: seq<Frame>, v: Edge, els: bool, t: Trace, post: bool)
    requires Shape(g, ranks) && v.node in g && Leads(g, stack, v)
    ensures var w := if els then g[v.node].els else g[v.node].thn;
      && In(g, w) && Leads(g, [Frame(v, els)] + stack, w)
      && Unwind(g, ranks, [Frame(v, els)] + stack, w, t, post)
         == (var t' := Leave(w, t, post);
             Unwind(g, ranks, stack, v, if els then t' else VisitElse(g, ranks, v, t', post), post))
  {
    LinkRanks(g, ranks, v);
    assert ([Frame(v, els)] + stack)[1..] == stack;
  }

  /** The steps of a visit. */
  lemma BodySteps(g: Nodes, ranks: seq<nat>, v: Edge, t: Trace, post: bool)
    requires Shape(g, ranks) && v.node in g
    ensures Body(g, ranks, v, t, post) == VisitElse(g, ranks, v, VisitThen(g, ranks, v, Enter(v, t, post), post), post)
  {
  }

  lemma KidSteps(g: Nodes, ranks: seq<nat>, v: Edge, t: Trace, post: bool)
    requires Shape(g, ranks) && v.node in g
    ensures In(g, g[v.node].thn) && In(g, g[v.node].els)
    ensures VisitThen(g, ranks, v, t, post)
         == if NotMarked(t.mark, g[v.node].thn, v)
            then Leave(g[v.node].thn, Body(g, ranks, g[v.node].thn, t, post), post) else t
    ensures VisitElse(g, ranks, v, t, post)
         == if NotMarked(t.mark, g[v.node].els, v)
            then Leave(g[v.node].els, Body(g, ranks, g[v.node].els, t, post), post) else t
  {
    LinkRanks(g, ranks, v);
    if NotMarked(t.mark, g[v.node].thn, v) {
      assert Visit(g, ranks, g[v.node].thn, t, post) == Leave(g[v.node].thn, Body(g, ranks, g[v.node].thn, t, post), post);
    }
    if NotMarked(t.mark, g[v.node].els, v) {
      assert Visit(g, ranks, g[v.node].els, t, post) == Leave(g[v.node].els, Body(g, ranks, g[v.node].els, t, post), post);
    }
  }

  /** A node just left on the way down joins the ones already toggled. */
  lemma PushedMarks(stack: seq<Frame>, f: Frame, mark: set<nat>, c: bool)
    requires forall n {:trigger n in StackNodes(stack)} :: n in StackNodes(stack) ==> (n in mark) == !c
    requires (f.e.node in mark) == !c
    ensures forall n {:trigger n in StackNodes([f] + stack)} :: n in StackNodes([f] + stack) ==> (n in mark) == !c
  {
    assert ([f] + stack)[1..] == stack;
  }

  lemma PushedInside(area: set<nat>, stack: seq<Frame>, f: Frame, g: Nodes)
    requires Inside(area, stack, f.e) && Closed(g, area) && f.e.node in g
    ensures Inside(area, [f] + stack, if f.els then g[f.e.node].els else g[f.e.node].thn)
  {
    assert ([f] + stack)[1..] == stack;
  }

  /** MOVE_DOWN to a child that is not marked, to be visited next. */
  method Descend<S(!new)>(m: Memory<S>, v: Edge, b: Edge, els: bool, post: bool, ghost g: Nodes, ghost ranks: seq<nat>,
                 ghost stack: seq<Frame>, ghost c: bool, ghost total: Trace, ghost area: set<nat>)
    returns (v': Edge, b': Edge, ghost stack': seq<Frame>)
    requires Inside(area, stack, v) && Closed(g, area)
    requires Reversed(g, ranks, m.links, m.flag, stack, v, m.void) && b == Parent(stack, m.void) && v.node in g
    requires Shape(g, ranks) && Leads(g, stack, v)
    requires (v.node in m.mark) == !c
    requires forall n {:trigger n in StackNodes(stack)} :: n in StackNodes(stack) ==> (n in m.mark) == !c
    requires NotMarked(m.mark, if els then g[v.node].els else g[v.node].thn, v)
    requires Unwind(g, ranks, stack, v, if els then VisitElse(g, ranks, v, m.Visits(), post)
                    else VisitElse(g, ranks, v, VisitThen(g, ranks, v, m.Visits(), post), post), post) == total
    modifies m`links, m`flag
    ensures Running(m, g, ranks, area, Restart, v', b', stack', c, post, total)
  {
    hide Reversed, Shape, Body, VisitThen, VisitElse, Leads, Unwind, StackNodes;
    ghost var t := m.Visits();
    KidSteps(g, ranks, v, t, post);
    UnwindDown(g, ranks, stack, v, els, Body(g, ranks, if els then g[v.node].els else g[v.node].thn, t, post), post);
    PushedMarks(stack, Frame(v, els), m.mark, c);
    PushedInside(area, stack, Frame(v, els), g);
    stack' := [Frame(v, els)] + stack;
    v', b' := MoveDown(m, v, b, els, g, ranks, stack);
    assert m.Visits() == t;
  }

  /** restart: mark, act, and go to the first child that is not marked. */
  method AtRestart<S(!new)>(m: Memory<S>, v: Edge, b: Edge, post: bool, ghost g: Nodes, ghost ranks: seq<nat>,
                   ghost stack: seq<Frame>, ghost c: bool, ghost total: Trace,
                   act: Action<S>, ghost area: set<nat>, ghost inv: S -> bool, ghost s0: S, ghost log0: seq<Edge>)
    returns (at: Label, v': Edge, b': Edge, ghost stack': seq<Frame>)
    requires Running(m, g, ranks, area, Restart, v, b, stack, c, post, total) && Local(act, g, ranks, area, inv) && Acted(m, act, g, inv, s0, log0)
    modifies m`links, m`flag, m`mark, m`log, m`acc
    ensures Running(m, g, ranks, area, at, v', b', stack', c, post, total) && Acted(m, act, g, inv, s0, log0)
    ensures Fresh(g, m.mark, c) == old(Fresh(g, m.mark, c)) - {v.node} && v.node in old(Fresh(g, m.mark, c))
  {
    hide Reversed, Shape, Body, VisitThen, VisitElse, Leads, Unwind, StackNodes, Local, Replay;
    ReversedKeys(g, ranks, m.links, m.flag, stack, v, m.void);
    NotOnStack(g, ranks, stack, v);
    ghost var t1 := Enter(v, m.Visits(), post);
    m.mark := Toggle(m.mark, v.node);
    if !post {
      Act(m, v, act, g, ranks, stack, area, inv, s0, log0);
    }
    assert m.Visits() == t1;
    if v.node in m.links {
      BodySteps(g, ranks, v, old(m.Visits()), post);
      KidSteps(g, ranks, v, t1, post);
      DownOk(g, ranks, m.links, m.flag, stack, v, m.void, false);
      if NotMarked(m.mark, m.links[v.node].thn, v) {
        at := Restart;
        v', b', stack' := Descend(m, v, b, false, post, g, ranks, stack, c, total, area);
      } else {
        at, v', b', stack' := Restart2, v, b, stack;
      }
    } else {
      BodyTerminal(g, ranks, v, old(m.Visits()), post);
      at, v', b', stack' := Back, v, b, stack;
    }
  }

  lemma BodyTerminal(g: Nodes, ranks: seq<nat>, v: Edge, t: Trace, post: bool)
    requires Shape(g, ranks) && In(g, v) && v.node !in g
    ensures Body(g, ranks, v, t, post) == Enter(v, t, post)
  {
  }

  /** restart2: the ELSE child. */
  method AtRestart2<S(!new)>(m: Memory<S>, v: Edge, b: Edge, post: bool, ghost g: Nodes, ghost ranks: seq<nat>,
                    ghost stack: seq<Frame>, ghost c: bool, ghost total: Trace, ghost area: set<nat>)
    returns (at: Label, v': Edge, b': Edge, ghost stack': seq<Frame>)
    requires Running(m, g, ranks, area, Restart2, v, b, stack, c, post, total)
    modifies m`links, m`flag
    ensures Running(m, g, ranks, area, at, v', b', stack', c, post, total)
    ensures at == Restart || (at == Back && stack' == stack)
  {
    hide Reversed, Shape, Body, VisitThen, VisitElse, Leads, Unwind;
    ReversedKeys(g, ranks, m.links, m.flag, stack, v, m.void);
    KidSteps(g, ranks, v, m.Visits(), post);
    DownOk(g, ranks, m.links, m.flag, stack, v, m.void, true);
    if NotMarked(m.mark, m.links[v.node].els, v) {
      at := Restart;
      v', b', stack' := Descend(m, v, b, true, post, g, ranks, stack, c, total, area);
    } else {
      at, v', b', stack' := Back, v, b, stack;
    }
  }

  /** The post action and MOVE_UP_AND_RESTART2. */
  method AtBack<S(!new)>(m: Memory<S>, v: Edge, b: Edge, post: bool, ghost g: Nodes, ghost ranks: seq<nat>,
                ghost stack: seq<Frame>, ghost c: bool, ghost total: Trace,
                   act: Action<S>, ghost area: set<nat>, ghost inv: S -> bool, ghost s0: S, ghost log0: seq<Edge>)
    returns (at: Label, v': Edge, b': Edge, ghost stack': seq<Frame>)
    requires Running(m, g, ranks, area, Back, v, b, stack, c, post, total) && b != m.void
    requires Shape(g, ranks) && Local(act, g, ranks, area, inv) && Acted(m, act, g, inv, s0, log0)
    modifies m`links, m`flag, m`log, m`acc
    ensures Running(m, g, ranks, area, at, v', b', stack', c, post, total) && Acted(m, act, g, inv, s0, log0)
    ensures at != Restart && |stack'| < |stack|
  {
    hide Reversed, Shape, Local, Replay;
    ReversedKeys(g, ranks, m.links, m.flag, stack, v, m.void);
    UpOk(g, ranks, m.links, m.flag, stack, v, m.void);
    ghost var f := stack[0];
    stack' := stack[1..];
    assert forall n {:trigger n in StackNodes(stack')} :: n in StackNodes(stack') ==> n in StackNodes(stack);
    assert f.e.node in StackNodes(stack);
    if post {
      Act(m, v, act, g, ranks, stack, area, inv, s0, log0);
    }
    var nd := m.links[b.node];
    v' := b;
    if b.node in m.flag {
      m.flag := m.flag - {b.node};
      b', at := nd.els, Back;
      m.links := m.links[v'.node := nd.(els := v)];
    } else {
      b', at := nd.thn, Restart2;
      m.links := m.links[v'.node := nd.(thn := v)];
      assert m.flag == m.flag - {f.e.node};
    }
  }

  /** bdd_traverse_pre and, with post, bdd_traverse_post: the same calls in the same order as the
      recursive versions, the same marks, and every link and flag as before. The actions run while
      links are turned round, but have the effect of being called on the graph as it was. */
  method Traverse<S(!new)>(m: Memory<S>, root: Edge, act: Action<S>, post: bool, ghost ranks: seq<nat>, ghost inv: S -> bool)
    requires Shape(m.links, ranks) && In(m.links, root) && m.flag == {}
    requires m.void.node !in m.links && m.void.node != 0
    requires Local(act, m.links, ranks, Reach(m.links, ranks, root), inv) && inv(m.acc)
    modifies m
    ensures m.links == old(m.links) && m.flag == {}
    ensures m.Visits() == Visit(old(m.links), ranks, root, old(m.Visits()), post)
    ensures Acted(m, act, old(m.links), inv, old(m.acc), old(m.log))
  {
    ghost var g, area := m.links, Reach(m.links, ranks, root);
    ReachIsClosed(g, ranks, root);
    ghost var s0, log0 := m.acc, m.log;
    ghost var total := Visit(g, ranks, root, m.Visits(), post);
    ghost var c := root.node in m.mark;
    ghost var stack: seq<Frame> := [];
    var v, b, at := root, m.void, Restart;
    while at != Back || b != m.void
      invariant Running(m, g, ranks, area, at, v, b, stack, c, post, total) && Acted(m, act, g, inv, s0, log0)
      decreases Fresh(g, m.mark, c), if at == Restart then 0 else 1, |stack|, if at == Restart2 then 1 else 0
    {
      hide Running, Fresh, Local, Acted;
      match at
      case Restart => at, v, b, stack := AtRestart(m, v, b, post, g, ranks, stack, c, total, act, area, inv, s0, log0);
      case Restart2 => at, v, b, stack := AtRestart2(m, v, b, post, g, ranks, stack, c, total, area);
      case Back => at, v, b, stack := AtBack(m, v, b, post, g, ranks, stack, c, total, act, area, inv, s0, log0);
    }
    ReversedKeys(g, ranks, m.links, m.flag, stack, v, m.void);
    if post {
      Act(m, v, act, g, ranks, stack, area, inv, s0, log0);
    }
  }
}
