/** Dumping a vector of functions into bytes, and restoring it, in whatever variable order. */
module Dump {
  import opened Functions
  import opened Graph
  import opened State
  import opened Tables
  import opened IteOps
  import opened ConstrainOps
  import opened Cubes
  import opened Expressions
  import opened Traverse
  import opened FactorVec
  import opened DepthFirst
  import opened DumpFormat

  /** The state of a pass over a vector from uniform marks: c tells what they were. */
  ghost predicate Passing(g: Nodes, ranks: seq<nat>, area: set<nat>, m0: set<nat>, c: bool, done: set<nat>, t: Trace, post: bool)
    requires Shape(g, ranks)
  {
    && Settled(g, ranks, done, 0) && Marked(area, m0, c, done, t.mark)
    && Once(t.log) && NodesOf(t.log) == done && (post ==> PostOrdered(g, {}, t.log))
  }

  /** Up to position p the log has the nodes of all elements before the k-th, and of that one, which is
      the last. */
  ghost predicate EndsAt(g: Nodes, ranks: seq<nat>, fs: seq<Pointer>, log: seq<Edge>, k: nat, p: nat)
    requires Shape(g, ranks) && VecIn(g, fs) && k < |fs| && fs[k].To?
  {
    0 < p <= |log| && log[p - 1].node == fs[k].e.node && NodesOf(log[..p]) == ReachAll(g, ranks, fs, k + 1)
  }

  ghost predicate Ends(g: Nodes, ranks: seq<nat>, fs: seq<Pointer>, log: seq<Edge>, k: nat)
    requires Shape(g, ranks) && VecIn(g, fs)
  {
    k < |fs| && fs[k].To? && fs[k].e.node !in ReachAll(g, ranks, fs, k) ==>
      exists p: nat {:trigger EndsAt(g, ranks, fs, log, k, p)} :: EndsAt(g, ranks, fs, log, k, p)
  }

  /** A post-order pass ends with each element that is new. */
  ghost predicate AllEnd(g: Nodes, ranks: seq<nat>, fs: seq<Pointer>, log: seq<Edge>, n: nat)
    requires Shape(g, ranks) && VecIn(g, fs)
  {
    forall k: nat {:trigger Ends(g, ranks, fs, log, k)} :: k < n ==> Ends(g, ranks, fs, log, k)
  }

  lemma EndsMore(g: Nodes, ranks: seq<nat>, fs: seq<Pointer>, log: seq<Edge>, log': seq<Edge>, n: nat)
    requires Shape(g, ranks) && VecIn(g, fs) && AllEnd(g, ranks, fs, log, n) && log <= log'
    ensures AllEnd(g, ranks, fs, log', n)
  {
    forall k: nat | k < n
      ensures Ends(g, ranks, fs, log', k)
    {
      assert Ends(g, ranks, fs, log, k);
      if k < |fs| && fs[k].To? && fs[k].e.node !in ReachAll(g, ranks, fs, k) {
        var p: nat :| EndsAt(g, ranks, fs, log, k, p);
        assert log'[..p] == log[..p];
        assert EndsAt(g, ranks, fs, log', k, p);
      }
    }
  }

  /** The visit of the next element, which is not visited yet, ends with it. */
  lemma EndsNext(g: Nodes, ranks: seq<nat>, fs: seq<Pointer>, t: Trace, k: nat)
    requires Shape(g, ranks) && VecIn(g, fs) && k < |fs| && fs[k].To? && AllEnd(g, ranks, fs, t.log, k)
    requires var t' := Visit(g, ranks, fs[k].e, t, true);
      t.log <= t'.log && NodesOf(t'.log) == ReachAll(g, ranks, fs, k + 1)
    ensures AllEnd(g, ranks, fs, Visit(g, ranks, fs[k].e, t, true).log, k + 1)
  {
    var t' := Visit(g, ranks, fs[k].e, t, true);
    EndsMore(g, ranks, fs, t.log, t'.log, k);
    var p := |t'.log|;
    assert t'.log == Body(g, ranks, fs[k].e, t, true).log + [fs[k].e];
    assert t'.log[..p] == t'.log;
    assert EndsAt(g, ranks, fs, t'.log, k, p);
    assert Ends(g, ranks, fs, t'.log, k);
  }

  /** An element met before, or void, adds nothing. */
  lemma EndsSkip(g: Nodes, ranks: seq<nat>, fs: seq<Pointer>, log: seq<Edge>, k: nat)
    requires Shape(g, ranks) && VecIn(g, fs) && k < |fs| && AllEnd(g, ranks, fs, log, k)
    requires fs[k].To? ==> fs[k].e.node in ReachAll(g, ranks, fs, k)
    ensures AllEnd(g, ranks, fs, log, k + 1)
  {
    assert Ends(g, ranks, fs, log, k);
  }

  lemma PassNext(g: Nodes, ranks: seq<nat>, area: set<nat>, m0: set<nat>, c: bool, done: set<nat>, t: Trace, e: Edge, post: bool)
    requires Shape(g, ranks) && Passing(g, ranks, area, m0, c, done, t, post) && In(g, e) && Reach(g, ranks, e) <= area
    ensures (e.node in t.mark) == c <==> e.node !in done
    ensures e.node !in done ==> Passing(g, ranks, area, m0, c, done + Reach(g, ranks, e), Visit(g, ranks, e, t, post), post)
    ensures e.node !in done ==>
      t.log <= Visit(g, ranks, e, t, post).log && NodesOf(Visit(g, ranks, e, t, post).log) == done + Reach(g, ranks, e)
    ensures e.node in done ==> done + Reach(g, ranks, e) == done
  {
    ReachSelf(g, ranks, e);
    assert e.node in area;
    if e.node in done {
      CompleteOf(g, ranks, done, 0, e);
    } else {
      SettledHigher(g, ranks, done, 0, Rank(g, ranks, e));
      var added := VisitOk(g, ranks, area, m0, c, e, t, post, done);
      SettledReach(g, ranks, done, e, 0);
      assert Settled(g, ranks, done + Reach(g, ranks, e), 0);
      LogJoin(t.log, added);
      if post {
        var added' := VisitPost(g, ranks, area, m0, c, e, t, done);
        SameEnd(t.log, added, added');
        assert {} + NodesOf(t.log) == done;
        OrderedJoin(g, {}, t.log, added);
      }
    }
  }

  /** One pass over the vector: an element is traversed if its mark is still c. */
  method Pass(m: Manager, fs: seq<Pointer>, mark: set<nat>, c: bool, post: bool) returns (log: seq<Edge>, mark': set<nat>)
    requires m.Valid() && Shape(m.nodes, m.ranks) && VecIn(m.nodes, fs)
    requires forall n {:trigger n in mark} :: n in ReachAll(m.nodes, m.ranks, fs, |fs|) ==> (n in mark) == c
    ensures Once(log) && NodesOf(log) == ReachAll(m.nodes, m.ranks, fs, |fs|) && (post ==> PostOrdered(m.nodes, {}, log))
    ensures mark' == Flip(mark, ReachAll(m.nodes, m.ranks, fs, |fs|))
    ensures post ==> AllEnd(m.nodes, m.ranks, fs, log, |fs|)
  {
    hide TableOk, CacheOk, Inverse, Shape, Passing, ReachAll, Visit, Reach, PostOrdered, Ends;
    ghost var g, ranks := m.nodes, m.ranks;
    ghost var area := ReachAll(g, ranks, fs, |fs|);
    var t := Trace(mark, []);
    PassNone(g, ranks, fs, area, mark, c, post);
    for k := 0 to |fs|
      invariant Passing(g, ranks, area, mark, c, ReachAll(g, ranks, fs, k), t, post)
      invariant post ==> AllEnd(g, ranks, fs, t.log, k)
    {
      ReachAllNext(g, ranks, fs, k);
      if post && (fs[k].To? ==> fs[k].e.node in ReachAll(g, ranks, fs, k)) {
        EndsSkip(g, ranks, fs, t.log, k);
      }
      if fs[k].To? {
        ReachAllMono(g, ranks, fs, k);
        PassNext(g, ranks, area, mark, c, ReachAll(g, ranks, fs, k), t, fs[k].e, post);
        if (fs[k].e.node in t.mark) == c {
          if post {
            EndsNext(g, ranks, fs, t, k);
          }
          t := Visit(m.nodes, m.ranks, fs[k].e, t, post);
        }
      }
    }
    PassDone(g, ranks, area, mark, c, area, t, post);
    log, mark' := t.log, t.mark;
  }

  lemma PassNone(g: Nodes, ranks: seq<nat>, fs: seq<Pointer>, area: set<nat>, mark: set<nat>, c: bool, post: bool)
    requires Shape(g, ranks) && VecIn(g, fs)
    requires forall n {:trigger n in mark} :: n in area ==> (n in mark) == c
    ensures Passing(g, ranks, area, mark, c, ReachAll(g, ranks, fs, 0), Trace(mark, []), post)
  {
    LogNone();
  }

  lemma PassDone(g: Nodes, ranks: seq<nat>, area: set<nat>, m0: set<nat>, c: bool, done: set<nat>, t: Trace, post: bool)
    requires Shape(g, ranks) && Passing(g, ranks, area, m0, c, done, t, post)
    ensures Once(t.log) && NodesOf(t.log) == done && (post ==> PostOrdered(g, {}, t.log)) && t.mark == Flip(m0, done)
  {
  }

  /** The number of internal nodes of a log. */
  function Internal(log: seq<Edge>): nat {
    if log == [] then 0 else Internal(log[..|log| - 1]) + if log[|log| - 1].node == 0 then 0 else 1
  }

  /** Logs of the same nodes have as many internal ones. */
  lemma {:induction false} InternalIsCard(log: seq<Edge>)
    requires Once(log)
    ensures Internal(log) == |NodesOf(log) - {0}|
  {
    if log == [] {
      LogNone();
    } else {
      var k := |log| - 1;
      var n := log[k].node;
      LastIsNew(log, k);
      hide NodesOf, Once;
      InternalIsCard(log[..k]);
      CardAdd(NodesOf(log[..k]), n);
    }
  }

  lemma LastIsNew(log: seq<Edge>, k: nat)
    requires Once(log) && k == |log| - 1
    ensures log[k].node !in NodesOf(log[..k]) && Once(log[..k]) && NodesOf(log) == NodesOf(log[..k]) + {log[k].node}
  {
    assert log == log[..k] + [log[k]];
    LogJoin(log[..k], [log[k]]);
    LogOne(log[k]);
  }

  lemma CardAdd(s: set<nat>, n: nat)
    requires n !in s
    ensures |s + {n} - {0}| == |s - {0}| + if n == 0 then 0 else 1
  {
    assert s + {n} - {0} == if n == 0 then s - {0} else (s - {0}) + {n};
  }

  /** The terminal has address 1, the internal nodes are numbered from 3 on in the order of the log. */
  ghost predicate Placed(log: seq<Edge>, k: nat, aux: map<nat, nat>)
    requires k <= |log|
  {
    && 0 in aux && aux[0] == 1
    && (forall j {:trigger log[j]} :: 0 <= j < k && log[j].node != 0 ==>
          log[j].node in aux && aux[log[j].node] == Internal(log[..j]) + 3)
  }

  lemma PlacedNext(log: seq<Edge>, k: nat, aux: map<nat, nat>)
    requires k < |log| && Placed(log, k, aux)
    ensures log[k].node == 0 ==> Placed(log, k + 1, aux)
    ensures log[k].node != 0 && log[k].node !in aux ==> Placed(log, k + 1, aux[log[k].node := Internal(log[..k]) + 3])
  {
  }

  /** Every numbered node's address stands for its function. */
  ghost predicate Described(g: Nodes, den: Den, vars: nat, log: seq<Edge>, k: nat, aux: map<nat, nat>, rs: seq<NodeRec>)
    requires k <= |log|
  {
    && Backward(rs) && |rs| == Internal(log[..k]) && aux.Keys == NodesOf(log[..k]) + {0}
    && (forall n {:trigger aux[n]} :: n in aux ==>
          aux[n] < |rs| + 3 && aux[n] != 2 && Fns(rs)[aux[n]] == Sem(den, Edge(n, false)))
    && (forall i {:trigger rs[i]} :: 0 <= i < |rs| ==> rs[i].varid < vars)
  }

  ghost predicate Numbered(g: Nodes, den: Den, vars: nat, log: seq<Edge>, k: nat, aux: map<nat, nat>, rs: seq<NodeRec>)
    requires k <= |log|
  {
    Described(g, den, vars, log, k, aux, rs) && Placed(log, k, aux)
  }

  /** The record of a node names the addresses of its children. */
  ghost predicate Recorded(g: Nodes, log: seq<Edge>, k: nat, aux: map<nat, nat>, rs: seq<NodeRec>)
    requires k <= |log|
  {
    forall j {:trigger log[j]} :: 0 <= j < k && log[j].node != 0 ==>
      && log[j].node in g && g[log[j].node].thn.node in aux && g[log[j].node].els.node in aux
      && Internal(log[..j]) < |rs| && rs[Internal(log[..j])] == RecOf(g, aux, log[j].node)
  }

  lemma RecordedNext(g: Nodes, log: seq<Edge>, k: nat, aux: map<nat, nat>, rs: seq<NodeRec>)
    requires k < |log| && Recorded(g, log, k, aux, rs) && |rs| == Internal(log[..k])
    ensures log[k].node == 0 ==> Recorded(g, log, k + 1, aux, rs)
    ensures && log[k].node != 0 && log[k].node in g && log[k].node !in aux
            && g[log[k].node].thn.node in aux && g[log[k].node].els.node in aux ==>
      Recorded(g, log, k + 1, aux[log[k].node := |rs| + 3], rs + [RecOf(g, aux, log[k].node)])
  {
  }

  lemma NumberedNone(g: Nodes, den: Den, vars: nat, log: seq<Edge>)
    requires 0 !in den
    ensures Numbered(g, den, vars, log, 0, map[0 := 1], [])
  {
    ConstSem(den);
    LogNone();
  }

  /** The record of one node. */
  function RecOf(g: Nodes, aux: map<nat, nat>, n: nat): NodeRec
    requires n in g && g[n].thn.node in aux && g[n].els.node in aux
  {
    NodeRec(g[n].varid, aux[g[n].thn.node], aux[g[n].els.node], g[n].els.neg)
  }

  lemma LogPrefix(log: seq<Edge>, k: nat)
    requires k < |log|
    ensures NodesOf(log[..k + 1]) == NodesOf(log[..k]) + {log[k].node}
    ensures Internal(log[..k + 1]) == Internal(log[..k]) + if log[k].node == 0 then 0 else 1
  {
    assert log[..k + 1] == log[..k] + [log[k]];
    LogJoin(log[..k], [log[k]]);
    LogOne(log[k]);
    assert log[..k + 1][..k] == log[..k];
  }

  /** The children of the next internal node have been numbered. */
  lemma KidsNumbered(s: Table, ranks: seq<nat>, log: seq<Edge>, k: nat, aux: map<nat, nat>, rs: seq<NodeRec>)
    requires TableOk(s, ranks) && PostOrdered(s.g, {}, log) && k < |log| && log[k].node in s.g
    requires Described(s.g, s.den, |ranks|, log, k, aux, rs)
    ensures s.g[log[k].node].thn.node in aux && s.g[log[k].node].els.node in aux
  {
    assert After(s.g, {}, log, k);
  }

  lemma DescribedNext(s: Table, ranks: seq<nat>, log: seq<Edge>, k: nat, aux: map<nat, nat>, rs: seq<NodeRec>)
    requires TableOk(s, ranks) && PostOrdered(s.g, {}, log) && Once(log) && k < |log|
    requires Described(s.g, s.den, |ranks|, log, k, aux, rs) && In(s.g, log[k])
    ensures log[k].node == 0 ==> Described(s.g, s.den, |ranks|, log, k + 1, aux, rs)
    ensures log[k].node != 0 ==>
      && s.g[log[k].node].thn.node in aux && s.g[log[k].node].els.node in aux
      && Described(s.g, s.den, |ranks|, log, k + 1, aux[log[k].node := |rs| + 3], rs + [RecOf(s.g, aux, log[k].node)])
  {
    LogPrefix(log, k);
    if log[k].node != 0 {
      KidsNumbered(s, ranks, log, k, aux, rs);
      var r := RecOf(s.g, aux, log[k].node);
      assert aux[s.g[log[k].node].thn.node] < |rs| + 3 && aux[s.g[log[k].node].els.node] < |rs| + 3;
      FnsMore(rs, r);
      NewAddress(s, ranks, aux, rs, log[k].node);
      assert NodeOk(s.g, ranks, log[k].node);
      Fresh(log, k, aux);
    }
  }

  lemma NumberedNext(s: Table, ranks: seq<nat>, log: seq<Edge>, k: nat, aux: map<nat, nat>, rs: seq<NodeRec>)
    requires TableOk(s, ranks) && PostOrdered(s.g, {}, log) && Once(log) && k < |log|
    requires Numbered(s.g, s.den, |ranks|, log, k, aux, rs) && In(s.g, log[k])
    ensures log[k].node == 0 ==> Numbered(s.g, s.den, |ranks|, log, k + 1, aux, rs)
    ensures log[k].node != 0 ==>
      && s.g[log[k].node].thn.node in aux && s.g[log[k].node].els.node in aux
      && Numbered(s.g, s.den, |ranks|, log, k + 1, aux[log[k].node := |rs| + 3], rs + [RecOf(s.g, aux, log[k].node)])
  {
    hide TableOk, PostOrdered, Described, Placed, RecOf;
    DescribedNext(s, ranks, log, k, aux, rs);
    DescribedSizes(s.g, s.den, |ranks|, log, k, aux, rs);
    PlacedNext(log, k, aux);
    if log[k].node != 0 {
      Fresh(log, k, aux);
    }
  }

  lemma DescribedSizes(g: Nodes, den: Den, vars: nat, log: seq<Edge>, k: nat, aux: map<nat, nat>, rs: seq<NodeRec>)
    requires k <= |log| && Described(g, den, vars, log, k, aux, rs)
    ensures |rs| == Internal(log[..k]) && aux.Keys == NodesOf(log[..k]) + {0}
  {
  }

  lemma Fresh(log: seq<Edge>, k: nat, aux: map<nat, nat>)
    requires Once(log) && k < |log| && aux.Keys == NodesOf(log[..k]) + {0} && log[k].node != 0
    ensures log[k].node !in aux
  {
  }

  /** The new record's function is the node's. */
  lemma NewAddress(s: Table, ranks: seq<nat>, aux: map<nat, nat>, rs: seq<NodeRec>, n: nat)
    requires TableOk(s, ranks) && n in s.g && Backward(rs) && s.g[n].thn.node in aux && s.g[n].els.node in aux
    requires var i, j := aux[s.g[n].thn.node], aux[s.g[n].els.node];
      && i < |rs| + 3 && j < |rs| + 3
      && Fns(rs)[i] == Sem(s.den, Edge(s.g[n].thn.node, false)) && Fns(rs)[j] == Sem(s.den, Edge(s.g[n].els.node, false))
    ensures var r := RecOf(s.g, aux, n);
      Ite(Lit(r.varid, true), Fns(rs)[r.thn], NotIf(Fns(rs)[r.els], r.neg)) == Sem(s.den, Edge(n, false))
  {
    hide Fns, Sem, Ite, Lit, TableOk;
    NodeValue(s, ranks, n);
  }

  lemma NodeValue(s: Table, ranks: seq<nat>, n: nat)
    requires TableOk(s, ranks) && n in s.g
    ensures var nd := s.g[n];
      Ite(Lit(nd.varid, true), Sem(s.den, Edge(nd.thn.node, false)), NotIf(Sem(s.den, Edge(nd.els.node, false)), nd.els.neg))
      == Sem(s.den, Edge(n, false))
  {
    assert NodeOk(s.g, ranks, n);
    assert NodeDenotes(s.g, s.den, n);
    var nd := s.g[n];
    assert Sem(s.den, nd.thn) == Sem(s.den, Edge(nd.thn.node, false));
    assert Sem(s.den, nd.els) == NotIf(Sem(s.den, Edge(nd.els.node, false)), nd.els.neg);
  }

  /** bdd_dump_to_chars_action on every node, children first. */
  method DumpNodes(m: Manager, log: seq<Edge>) returns (aux: map<nat, nat>, store: seq<Byte>, ghost rs: seq<NodeRec>)
    requires m.Valid() && PostOrdered(m.nodes, {}, log) && Once(log)
    requires forall i {:trigger log[i]} :: 0 <= i < |log| ==> In(m.nodes, log[i])
    ensures Numbered(m.nodes, m.den, |m.ranks|, log, |log|, aux, rs) && store == NodesBytes(rs)
    ensures Recorded(m.nodes, log, |log|, aux, rs)
  {
    hide TableOk, CacheOk, Inverse, PostOrdered, Numbered, Once, Recorded, RecOf;
    assert Recorded(m.nodes, log, 0, map[0 := 1], []) by { NoneRecorded(m.nodes, log); }
    var id := 3;
    aux, store, rs := map[0 := 1], [], [];
    CoreKeys(m.Tab(), m.ranks);
    NumberedNone(m.nodes, m.den, |m.ranks|, log);
    for k := 0 to |log|
      invariant Numbered(m.nodes, m.den, |m.ranks|, log, k, aux, rs) && store == NodesBytes(rs) && id == |rs| + 3
      invariant Recorded(m.nodes, log, k, aux, rs)
    {
      RecordOne(m.nodes, m.den, |m.ranks|, log, k, aux, rs);
      assert In(m.nodes, log[k]);
      NumberedNext(m.Tab(), m.ranks, log, k, aux, rs);
      var n := log[k].node;
      if n != 0 {
        var r := RecOf(m.nodes, aux, n);
        store := store + NodeBytes(r);
        BytesMore(rs, r);
        rs := rs + [r];
        aux := aux[n := id];
        id := id + 1;
      }
    }
  }

  lemma NoneRecorded(g: Nodes, log: seq<Edge>)
    ensures Recorded(g, log, 0, map[0 := 1], [])
  {
  }

  lemma RecordOne(g: Nodes, den: Den, vars: nat, log: seq<Edge>, k: nat, aux: map<nat, nat>, rs: seq<NodeRec>)
    requires k < |log| && Recorded(g, log, k, aux, rs) && Numbered(g, den, vars, log, k, aux, rs) && Once(log)
    ensures log[k].node == 0 ==> Recorded(g, log, k + 1, aux, rs)
    ensures log[k].node in g && log[k].node != 0 && g[log[k].node].thn.node in aux && g[log[k].node].els.node in aux ==>
      Recorded(g, log, k + 1, aux[log[k].node := |rs| + 3], rs + [RecOf(g, aux, log[k].node)])
  {
    hide Recorded, Once;
    if log[k].node != 0 {
      Fresh(log, k, aux);
    }
    RecordedNext(g, log, k, aux, rs);
  }

  lemma BytesMore(rs: seq<NodeRec>, r: NodeRec)
    ensures NodesBytes(rs + [r]) == NodesBytes(rs) + NodeBytes(r)
  {
    assert (rs + [r])[..|rs|] == rs;
  }

  lemma EdgeBytesMore(rs: seq<EdgeRec>, r: EdgeRec)
    ensures EdgesBytes(rs + [r]) == EdgesBytes(rs) + EdgeBytes(r)
  {
    assert (rs + [r])[..|rs|] == rs;
  }

  /** The record stands for the element. */
  ghost predicate EdgeOk(den: Den, rs: seq<NodeRec>, f: Pointer, r: EdgeRec)
    requires Backward(rs)
  {
    if f.Void? then r.VoidRec? else r.EdgeRec? && r.id < |rs| + 3 && r.id != 2 && !r.inv && EdgeFn(Fns(rs), r) == Sem(den, f.e)
  }

  ghost predicate EdgesOk(den: Den, rs: seq<NodeRec>, fs: seq<Pointer>, es: seq<EdgeRec>)
    requires Backward(rs)
  {
    |es| <= |fs| && forall k {:trigger es[k]} {:trigger fs[k]} :: 0 <= k < |es| ==> EdgeOk(den, rs, fs[k], es[k])
  }

  /** Each element's record has the address of its node. */
  ghost predicate EdgesFrom(fs: seq<Pointer>, aux: map<nat, nat>, es: seq<EdgeRec>) {
    |es| <= |fs| && forall k {:trigger es[k]} {:trigger fs[k]} :: 0 <= k < |es| && fs[k].To? ==>
      fs[k].e.node in aux && es[k] == EdgeRec(aux[fs[k].e.node], fs[k].e.neg, false)
  }

  lemma NumberedEdge(s: Table, ranks: seq<nat>, log: seq<Edge>, aux: map<nat, nat>, rs: seq<NodeRec>, e: Edge)
    requires Numbered(s.g, s.den, |ranks|, log, |log|, aux, rs) && e.node in NodesOf(log)
    ensures e.node in aux && EdgeOk(s.den, rs, To(e), EdgeRec(aux[e.node], e.neg, false))
  {
    assert log[..|log|] == log;
    assert e.node in aux;
    assert aux[e.node] < |rs| + 3;
  }

  lemma NoEdges(den: Den, rs: seq<NodeRec>, fs: seq<Pointer>, aux: map<nat, nat>)
    requires Backward(rs)
    ensures EdgesOk(den, rs, fs, []) && EdgesFrom(fs, aux, [])
  {
  }

  lemma EdgesMore(den: Den, rs: seq<NodeRec>, fs: seq<Pointer>, aux: map<nat, nat>, es: seq<EdgeRec>, r: EdgeRec)
    requires Backward(rs) && EdgesOk(den, rs, fs, es) && EdgesFrom(fs, aux, es) && |es| < |fs|
    requires EdgeOk(den, rs, fs[|es|], r)
    requires fs[|es|].To? ==> fs[|es|].e.node in aux && r == EdgeRec(aux[fs[|es|].e.node], fs[|es|].e.neg, false)
    ensures EdgesOk(den, rs, fs, es + [r]) && EdgesFrom(fs, aux, es + [r])
  {
    hide EdgeOk;
    forall k | 0 <= k < |es + [r]|
      ensures EdgeOk(den, rs, fs[k], (es + [r])[k])
    {
      if k < |es| {
        assert EdgeOk(den, rs, fs[k], es[k]);
      }
    }
  }

  /** bdd_dump_edge on every element */
  method DumpEdges(m: Manager, fs: seq<Pointer>, ghost log: seq<Edge>, aux: map<nat, nat>, ghost rs: seq<NodeRec>)
    returns (store: seq<Byte>, ghost es: seq<EdgeRec>)
    requires m.Valid() && Numbered(m.nodes, m.den, |m.ranks|, log, |log|, aux, rs) && Backward(rs)
    requires forall k {:trigger fs[k]} :: 0 <= k < |fs| && fs[k].To? ==> fs[k].e.node in NodesOf(log)
    ensures store == EdgesBytes(es) && |es| == |fs| && EdgesOk(m.den, rs, fs, es) && EdgesFrom(fs, aux, es)
  {
    hide TableOk, CacheOk, Inverse, Numbered, EdgeOk, EdgesOk, EdgesFrom, EdgeBytes;
    store, es := [], [];
    NoEdges(m.den, rs, fs, aux);
    for k := 0 to |fs|
      invariant store == EdgesBytes(es) && |es| == k && EdgesOk(m.den, rs, fs, es) && EdgesFrom(fs, aux, es)
    {
      var r;
      if fs[k].Void? {
        r := VoidRec;
        VoidOk(m.den, rs);
      } else {
        NumberedEdge(m.Tab(), m.ranks, log, aux, rs, fs[k].e);
        r := EdgeRec(aux[fs[k].e.node], fs[k].e.neg, false);
      }
      EdgeBytesMore(es, r);
      EdgesMore(m.den, rs, fs, aux, es, r);
      store := store + EdgeBytes(r);
      es := es + [r];
    }
  }

  lemma VoidOk(den: Den, rs: seq<NodeRec>)
    requires Backward(rs)
    ensures EdgeOk(den, rs, Void, VoidRec)
  {
  }

  lemma LogIn(s: Table, ranks: seq<nat>, fs: seq<Pointer>, log: seq<Edge>)
    requires TableOk(s, ranks) && VecAlive(s, fs) && VecIn(s.g, fs) && Shape(s.g, ranks)
    requires NodesOf(log) == ReachAll(s.g, ranks, fs, |fs|)
    ensures forall i {:trigger log[i]} :: 0 <= i < |log| ==> In(s.g, log[i])
    ensures forall k {:trigger fs[k]} :: 0 <= k < |fs| && fs[k].To? ==> fs[k].e.node in NodesOf(log)
  {
    hide TableOk, Shape, ReachAll, NodesOf;
    LogAllAlive(s, ranks, fs, log);
    forall k {:trigger fs[k]} | 0 <= k < |fs| && fs[k].To?
      ensures fs[k].e.node in NodesOf(log)
    {
      ReachAllMono(s.g, ranks, fs, k);
      ReachSelf(s.g, ranks, fs[k].e);
    }
  }

  lemma DumpedOk(s: Table, ranks: seq<nat>, fs: seq<Pointer>, log: seq<Edge>, aux: map<nat, nat>, rs: seq<NodeRec>, es: seq<EdgeRec>)
    requires TableOk(s, ranks) && Numbered(s.g, s.den, |ranks|, log, |log|, aux, rs)
    requires ByteCount(|rs|, |fs|) < 0x8000_0000 && |es| == |fs| && Backward(rs) && EdgesOk(s.den, rs, fs, es)
    ensures Internal(log) == |rs| && DumpOf(s.den, fs, File(rs, es, |ranks|), rs, es, |ranks|)
  {
    assert log[..|log|] == log;
  }

  /** In any dump the records fit whose children have addresses of 22 bits, as those before address 2^22. */
  lemma EarlyFits(den: Den, fs: seq<Pointer>, b: seq<Byte>, rs: seq<NodeRec>, es: seq<EdgeRec>, vars: nat, i: nat)
    requires DumpOf(den, fs, b, rs, es, vars) && vars <= TERMID && i < |rs| && i <= MAX_NODES
    ensures NodeFits(rs[i]) && rs[i].varid < TERMID
  {
    assert rs[i].varid < vars && rs[i].thn < i + 3;
  }

  /** Up to 2^22 - 3 internal nodes everything fits. */
  lemma SmallFits(den: Den, fs: seq<Pointer>, b: seq<Byte>, rs: seq<NodeRec>, es: seq<EdgeRec>, vars: nat)
    requires DumpOf(den, fs, b, rs, es, vars) && |rs| <= MAX_NODES && vars <= TERMID
    ensures AllFit(rs, es)
  {
    forall i | 0 <= i < |rs|
      ensures NodeFits(rs[i])
    {
      EarlyFits(den, fs, b, rs, es, vars, i);
    }
    forall i | 0 <= i < |es|
      ensures EdgeFits(es[i])
    {
      assert EdgeOk(den, rs, fs[i], es[i]);
    }
  }

  lemma NumberedFacts(g: Nodes, den: Den, vars: nat, log: seq<Edge>, aux: map<nat, nat>, rs: seq<NodeRec>)
    requires Numbered(g, den, vars, log, |log|, aux, rs)
    ensures Backward(rs) && |rs| == Internal(log)
  {
    assert log[..|log|] == log;
  }

  /** All records fit their fields. */
  ghost predicate AllFit(rs: seq<NodeRec>, es: seq<EdgeRec>) {
    && (forall i {:trigger rs[i]} :: 0 <= i < |rs| ==> NodeFits(rs[i]))
    && (forall i {:trigger es[i]} :: 0 <= i < |es| ==> EdgeFits(es[i]))
  }

  /** A dump of the vector. */
  ghost predicate DumpOf(den: Den, fs: seq<Pointer>, b: seq<Byte>, rs: seq<NodeRec>, es: seq<EdgeRec>, vars: nat) {
    && Backward(rs) && |es| == |fs| && EdgesOk(den, rs, fs, es) && b == File(rs, es, vars)
    && (forall i {:trigger rs[i]} :: 0 <= i < |rs| ==> rs[i].varid < vars)
    && ByteCount(|rs|, |es|) < 0x8000_0000
  }

  /** The size of a dump, which the code computes in an int. */
  function ByteCount(nodes: nat, size: nat): nat {
    8 * nodes + 12 + 3 * size
  }

  /** The largest number of internal nodes whose addresses, from 3 on, have 22 bits. */
  const MAX_NODES := 0x3F_FFFD

  /** How the addresses came about: the log of the post-order pass numbers the internal nodes. */
  ghost predicate Addressed(g: Nodes, ranks: seq<nat>, den: Den, fs: seq<Pointer>, log: seq<Edge>, aux: map<nat, nat>,
                            rs: seq<NodeRec>, es: seq<EdgeRec>)
    requires Shape(g, ranks) && VecIn(g, fs)
  {
    && Once(log) && PostOrdered(g, {}, log) && NodesOf(log) == ReachAll(g, ranks, fs, |fs|) && AllEnd(g, ranks, fs, log, |fs|)
    && Numbered(g, den, |ranks|, log, |log|, aux, rs) && Recorded(g, log, |log|, aux, rs) && EdgesFrom(fs, aux, es)
  }

  /** bdd_dump_to_chars_vec */
  method DumpVec(m: Manager, fs: seq<Pointer>)
    returns (b: seq<Byte>, ghost rs: seq<NodeRec>, ghost es: seq<EdgeRec>, ghost log: seq<Edge>, ghost aux': map<nat, nat>)
    requires m.Valid() && VecAlive(m.Tab(), fs) && Shape(m.nodes, m.ranks) && VecIn(m.nodes, fs)
    requires ByteCount(|ReachAll(m.nodes, m.ranks, fs, |fs|) - {0}|, |fs|) < 0x8000_0000
    ensures DumpOf(m.den, fs, b, rs, es, |m.ranks|) && |rs| == |ReachAll(m.nodes, m.ranks, fs, |fs|) - {0}|
    ensures Addressed(m.nodes, m.ranks, m.den, fs, log, aux', rs, es) && LaidOut(b, rs, es, |m.ranks|)
  {
    hide TableOk, CacheOk, Inverse, PostOrdered, Numbered, Recorded, Once, Shape, ReachAll, EdgesOk, AllEnd, EdgesFrom, LaidOut;
    var log0, mark := Pass(m, fs, {}, false, false);
    InternalIsCard(log0);
    var order, _ := Pass(m, fs, mark, true, true);
    log := order;
    InternalIsCard(log);
    LogIn(m.Tab(), m.ranks, fs, log);
    var aux, store;
    aux, store, rs := DumpNodes(m, order);
    aux' := aux;
    NumberedFacts(m.nodes, m.den, |m.ranks|, log, aux, rs);
    var edges;
    edges, es := DumpEdges(m, fs, log, aux, rs);
    b := Header(Internal(log0), |fs|, |m.ranks|) + store + edges;
    DumpedOk(m.Tab(), m.ranks, fs, log, aux, rs, es);
    VarsCount(m.Tab(), m.ranks);
    FileLayout(rs, es, |m.ranks|);
  }

  lemma VarsCount(s: Table, ranks: seq<nat>)
    requires TableOk(s, ranks)
    ensures |ranks| <= TERMID
  {
  }
}
