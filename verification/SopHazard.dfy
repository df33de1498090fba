/** Garbage collection while the cache of sum-of-products lists still holds references. */
module SopHazard {
  import opened Functions
  import opened Graph
  import opened RefCount
  import opened State
  import opened Tables
  import opened IteOps
  import opened Traverse
  import Support

  /** What bdd_flush_computed_table leaves of an entry. */
  function Flushed(e: Entry, refs: Refs): Entry {
    if AllAlive(e, refs) then e else Empty
  }

  ghost function FlushedAll(c: seq<Entry>, refs: Refs): (r: seq<Entry>)
    ensures |r| == |c| && forall i {:trigger r[i]} :: 0 <= i < |c| ==> r[i] == Flushed(c[i], refs)
  {
    seq(|c|, i requires 0 <= i < |c| => Flushed(c[i], refs))
  }

  /** Node n is reached from a node that is frozen or among those held. */
  ghost predicate Reached(s: Table, ranks: seq<nat>, held: multiset<nat>, n: nat)
    requires Shape(s.g, ranks)
  {
    exists h: nat {:trigger ReachedFrom(s, ranks, held, h, n)} :: ReachedFrom(s, ranks, held, h, n)
  }

  ghost predicate ReachedFrom(s: Table, ranks: seq<nat>, held: multiset<nat>, h: nat, n: nat)
    requires Shape(s.g, ranks)
  {
    h in s.g && (held[h] > 0 || h in Frozen(s.refs)) && n in Reach(s.g, ranks, Edge(h, false))
  }

  /** What is alive is what the held and the frozen nodes reach. */
  lemma AliveIsReached(s: Table, ranks: seq<nat>, n: nat)
    requires TableOk(s, ranks) && Shape(s.g, ranks) && n in s.g
    ensures Count(s.refs, n) > 0 <==> Reached(s, ranks, s.ext, n)
  {
    if Count(s.refs, n) > 0 {
      LiveReached(s, ranks, n);
    }
    if Reached(s, ranks, s.ext, n) {
      var h: nat :| ReachedFrom(s, ranks, s.ext, h, n);
      if s.ext[h] > 0 {
        HeldAlive(s, ranks, h);
      }
      Support.ReachAlive(s, ranks, Edge(h, false), n);
    }
  }

  /** A live node that is neither held nor frozen has a live parent, further up. */
  lemma {:induction false} LiveReached(s: Table, ranks: seq<nat>, n: nat)
    requires TableOk(s, ranks) && Shape(s.g, ranks) && n in s.g && Count(s.refs, n) > 0
    ensures Reached(s, ranks, s.ext, n)
    decreases Rank(s.g, ranks, Edge(n, false))
  {
    var e := Edge(n, false);
    ReachSelf(s.g, ranks, e);
    if s.ext[n] > 0 || n in Frozen(s.refs) {
      assert ReachedFrom(s, ranks, s.ext, n, n);
    } else {
      assert Balanced(s.g, s.refs, s.ext, multiset{}, Live(s.g, s.refs), n);
      var p := HasParent(s.g, Live(s.g, s.refs), n);
      ParentAbove(s, ranks, p, n);
      LiveReached(s, ranks, p);
      var h: nat :| ReachedFrom(s, ranks, s.ext, h, p);
      ReachClosed(s.g, ranks, Edge(h, false), Edge(p, false));
      assert ReachedFrom(s, ranks, s.ext, h, n);
    }
  }

  lemma ParentAbove(s: Table, ranks: seq<nat>, p: nat, n: nat)
    requires TableOk(s, ranks) && Shape(s.g, ranks) && p in s.g && n in s.g && Hits(s.g[p], n) > 0
    ensures Rank(s.g, ranks, Edge(p, false)) < Rank(s.g, ranks, Edge(n, false))
    ensures n in Reach(s.g, ranks, Edge(p, false))
  {
    ReachSplit(s.g, ranks, Edge(p, false));
    LinkRanks(s.g, ranks, Edge(p, false));
    var nd := s.g[p];
    ReachSelf(s.g, ranks, nd.thn);
    ReachSelf(s.g, ranks, nd.els);
    assert nd.thn.node == n ==> Rank(s.g, ranks, nd.thn) == Rank(s.g, ranks, Edge(n, false));
    assert nd.els.node == n ==> Rank(s.g, ranks, nd.els) == Rank(s.g, ranks, Edge(n, false));
  }

  /** The nodes that bdd_gc leaves: those that are reached once the sum-of-products cache, sop, holds
      nothing any more. */
  ghost function Left(s: Table, ranks: seq<nat>, sop: seq<Edge>): set<nat>
    requires Shape(s.g, ranks)
  {
    set n | n in s.g && Reached(s, ranks, s.ext - Tables.Nodes(sop), n)
  }

  /** bdd_gc as it stands: the computed table is flushed before the sum-of-products cache gives up its
      references. */
  method GcAny(m: Manager)
    requires m.Core() && CacheOk(m.cache, m.nodes, m.ranks, m.space, m.den) && Tables.Nodes(m.sop) <= m.ext
    requires Shape(m.nodes, m.ranks)
    modifies m`nodes, m`refs, m`den, m`ext, m`sop, m`cache
    ensures m.Core() && m.sop == [] && m.ext == old(m.ext) - old(Tables.Nodes(m.sop))
    ensures m.cache == old(FlushedAll(m.cache, m.refs))
    ensures m.nodes.Keys == old(Left(m.Tab(), m.ranks, m.sop))
    ensures forall n {:trigger n in m.nodes} :: n in m.nodes ==> n in old(m.nodes) && m.nodes[n] == old(m.nodes)[n]
  {
    hide TableOk, CacheOk, Inverse, AllAlive, Tables.Nodes, Shape, FrozenSame;
    ghost var s, c, sop := m.Tab(), m.cache, m.sop;
    Flush(m);
    assert m.cache == FlushedAll(c, s.refs);
    GcAux(m);
    LeftIs(s, m.Tab(), m.ranks, sop);
  }

  /** After the cleanup and the sweep exactly those nodes are there. */
  lemma LeftIs(s: Table, t: Table, ranks: seq<nat>, sop: seq<Edge>)
    requires TableOk(t, ranks) && Shape(s.g, ranks) && FrozenSame(s.refs, t.refs)
    requires t.ext == s.ext - Tables.Nodes(sop)
    requires forall n {:trigger n in t.g} :: n in t.g <==> n in s.g && Count(t.refs, n) > 0
    requires forall n {:trigger n in t.g} :: n in t.g ==> t.g[n] == s.g[n]
    ensures t.g.Keys == Left(s, ranks, sop)
  {
    forall n: nat
      ensures n in t.g <==> n in Left(s, ranks, sop)
    {
      if n in t.g {
        LeftReached(s, t, ranks, n);
      }
      if n in Left(s, ranks, sop) {
        var h: nat :| ReachedFrom(s, ranks, t.ext, h, n);
        ReachedLeft(s, t, ranks, h, n);
      }
    }
  }

  lemma SameReach(s: Table, t: Table, ranks: seq<nat>, h: nat)
    requires Shape(s.g, ranks) && Shape(t.g, ranks) && h in t.g
    requires forall n {:trigger n in t.g} :: n in t.g ==> n in s.g && t.g[n] == s.g[n]
    ensures Reach(s.g, ranks, Edge(h, false)) == Reach(t.g, ranks, Edge(h, false))
  {
    Support.ReachSame(t.g, s.g, ranks, Edge(h, false));
  }

  lemma LeftReached(s: Table, t: Table, ranks: seq<nat>, n: nat)
    requires TableOk(t, ranks) && Shape(s.g, ranks) && FrozenSame(s.refs, t.refs) && n in t.g && Count(t.refs, n) > 0
    requires forall n {:trigger n in t.g} :: n in t.g ==> n in s.g && t.g[n] == s.g[n]
    ensures Reached(s, ranks, t.ext, n)
  {
    LiveReached(t, ranks, n);
    var h: nat :| ReachedFrom(t, ranks, t.ext, h, n);
    SameReach(s, t, ranks, h);
    assert ReachedFrom(s, ranks, t.ext, h, n);
  }

  lemma ReachedLeft(s: Table, t: Table, ranks: seq<nat>, h: nat, n: nat)
    requires TableOk(t, ranks) && Shape(s.g, ranks) && FrozenSame(s.refs, t.refs) && n in s.g && ReachedFrom(s, ranks, t.ext, h, n)
    requires forall n {:trigger n in t.g} :: n in t.g <==> n in s.g && Count(t.refs, n) > 0
    requires forall n {:trigger n in t.g} :: n in t.g ==> t.g[n] == s.g[n]
    ensures n in t.g
  {
    if t.ext[h] > 0 {
      HeldAlive(t, ranks, h);
    } else {
      assert h in Frozen(t.refs);
    }
    assert Count(t.refs, h) > 0;
    SameReach(s, t, ranks, h);
    assert 0 !in s.g;
    Support.ReachAlive(t, ranks, Edge(h, false), n);
  }

  ghost predicate AllNamed(c: seq<Entry>, ns: set<nat>) {
    forall i {:trigger c[i]} :: 0 <= i < |c| ==> NamedIn(c[i], ns)
  }

  /** Every node the entry names is one of ns, or the terminal. */
  ghost predicate NamedIn(e: Entry, ns: set<nat>) {
    e.Entry? ==>
      && e.g.node in ns + {0} && e.h.node in ns + {0} && e.r.node in ns + {0}
      && (e.op.OpIte? ==> e.op.f.node in ns + {0})
  }

  /** What can be seen before the call: every node the sum-of-products cache names is also reached from
      a node that is frozen or held by something else. */
  ghost predicate Harmless(s: Table, ranks: seq<nat>, sop: seq<Edge>)
    requires Shape(s.g, ranks)
  {
    forall i {:trigger sop[i]} :: 0 <= i < |sop| && sop[i].node in s.g ==>
      Reached(s, ranks, s.ext - Tables.Nodes(sop), sop[i].node)
  }

  lemma {:induction false} NamedBySop(sop: seq<Edge>, n: nat)
    ensures Tables.Nodes(sop)[n] > 0 <==> exists i {:trigger sop[i]} :: 0 <= i < |sop| && sop[i].node == n
  {
    if sop != [] {
      NamedBySop(sop[1..], n);
      if Tables.Nodes(sop[1..])[n] > 0 {
        var i :| 0 <= i < |sop[1..]| && sop[1..][i].node == n;
        assert sop[i + 1].node == n;
      }
      if i :| 0 <= i < |sop| && sop[i].node == n {
        if i > 0 {
          assert sop[1..][i - 1].node == n;
        }
      }
    }
  }

  /** Then, and only then, no live node is lost. */
  lemma HarmlessKeeps(s: Table, ranks: seq<nat>, sop: seq<Edge>)
    requires TableOk(s, ranks) && Shape(s.g, ranks) && Tables.Nodes(sop) <= s.ext
    ensures Harmless(s, ranks, sop) <==>
      forall n {:trigger n in s.g} :: n in s.g && Count(s.refs, n) > 0 ==> n in Left(s, ranks, sop)
  {
    if Harmless(s, ranks, sop) {
      forall n | n in s.g && Count(s.refs, n) > 0
        ensures n in Left(s, ranks, sop)
      {
        StillReached(s, ranks, sop, n);
      }
    }
    if forall n {:trigger n in s.g} :: n in s.g && Count(s.refs, n) > 0 ==> n in Left(s, ranks, sop) {
      forall i {:trigger sop[i]} | 0 <= i < |sop| && sop[i].node in s.g
        ensures Reached(s, ranks, s.ext - Tables.Nodes(sop), sop[i].node)
      {
        NamedBySop(sop, sop[i].node);
        HeldAlive(s, ranks, sop[i].node);
        assert sop[i].node in Left(s, ranks, sop);
      }
    }
  }

  lemma StillReached(s: Table, ranks: seq<nat>, sop: seq<Edge>, n: nat)
    requires TableOk(s, ranks) && Shape(s.g, ranks) && Harmless(s, ranks, sop) && n in s.g && Count(s.refs, n) > 0
    ensures Reached(s, ranks, s.ext - Tables.Nodes(sop), n)
  {
    var rest := s.ext - Tables.Nodes(sop);
    LiveReached(s, ranks, n);
    var h: nat :| ReachedFrom(s, ranks, s.ext, h, n);
    if h in Frozen(s.refs) || rest[h] > 0 {
      assert ReachedFrom(s, ranks, rest, h, n);
    } else {
      NamedBySop(sop, h);
      var i :| 0 <= i < |sop| && sop[i].node == h;
      var h': nat :| ReachedFrom(s, ranks, rest, h', h);
      ReachClosed(s.g, ranks, Edge(h', false), Edge(h, false));
      assert ReachedFrom(s, ranks, rest, h', n);
    }
  }

  /** The garbage collection leaves no entry that names a removed node, whatever the computed table
      holds, if and only if the sum-of-products cache is harmless beforehand. */
  lemma GcSafeIff(s: Table, ranks: seq<nat>, space: seq<nat>, sop: seq<Edge>)
    requires TableOk(s, ranks) && Shape(s.g, ranks) && Tables.Nodes(sop) <= s.ext
    ensures (forall c: seq<Entry> :: CacheOk(c, s.g, ranks, space, s.den) ==>
               AllNamed(FlushedAll(c, s.refs), Left(s, ranks, sop)))
      <==> Harmless(s, ranks, sop)
  {
    HarmlessKeeps(s, ranks, sop);
    var left := Left(s, ranks, sop);
    if Harmless(s, ranks, sop) {
      forall c: seq<Entry> | CacheOk(c, s.g, ranks, space, s.den)
        ensures AllNamed(FlushedAll(c, s.refs), left)
      {
        SafeEntries(s, c, left, ranks, space);
      }
    } else {
      // An entry of the lost node alone; BuiltEntryLost has one that the package inserts.
      var n :| n in s.g && Count(s.refs, n) > 0 && n !in left;
      var e := Edge(n, false);
      var c := [Entry(OpIte(e), e, e, e)];
      assert c[0] == Entry(OpIte(e), e, e, e);
      assert CacheOk(c, s.g, ranks, space, s.den);
      assert FlushedAll(c, s.refs)[0] == c[0];
      assert !NamedIn(c[0], left);
      assert !AllNamed(FlushedAll(c, s.refs), left);
    }
  }

  /** The kind of entry that is lost in practice: the result of ite on a literal and the children of the
      node, in the standard form in which bdd_ite_aux inserts it. */
  lemma BuiltEntryLost(s: Table, ranks: seq<nat>, space: seq<nat>, sop: seq<Edge>, l: Edge, n: nat)
    requires TableOk(s, ranks) && Shape(s.g, ranks) && n in s.g && Count(s.refs, n) > 0 && n !in Left(s, ranks, sop)
    requires IsLiteral(s.g, l) && !l.neg && Count(s.refs, l.node) > 0 && s.g[l.node].varid == s.g[n].varid
    requires s.g[n].thn.node != 0 && s.g[n].els.node != 0 && s.g[n].thn.node != s.g[n].els.node
    ensures var e := Entry(OpIte(l), s.g[n].thn, s.g[n].els, Edge(n, false));
      && CacheOk([e], s.g, ranks, space, s.den) && Flushed(e, s.refs) == e && !NamedIn(e, Left(s, ranks, sop))
      && Standardize(s.g, ranks, Triple(l, e.g, e.h)) == Standard(Triple(l, e.g, e.h), false)
  {
    var nd := s.g[n];
    var e := Entry(OpIte(l), nd.thn, nd.els, Edge(n, false));
    assert NodeOk(s.g, ranks, n) && NodeOk(s.g, ranks, l.node);
    assert NodeDenotes(s.g, s.den, n) && NodeDenotes(s.g, s.den, l.node);
    ChildCounted(s.g, s.refs, s.ext, Live(s.g, s.refs), n);
    ConstSem(s.den);
    LiteralIte(nd.varid, Sem(s.den, nd.thn), Sem(s.den, nd.els));
    assert [e][0] == e;
  }

  lemma SafeEntries(s: Table, c: seq<Entry>, left: set<nat>, ranks: seq<nat>, space: seq<nat>)
    requires forall n {:trigger n in s.g} :: n in s.g && Count(s.refs, n) > 0 ==> n in left
    requires CacheOk(c, s.g, ranks, space, s.den)
    ensures AllNamed(FlushedAll(c, s.refs), left)
  {
    forall i | 0 <= i < |c|
      ensures NamedIn(FlushedAll(c, s.refs)[i], left)
    {
      assert Named(c[i], s.g);
    }
  }

  /** The nodes v0 at address 1, v1 at 2 and v0.v1 at 3, all held by one reference each. */
  ghost function Example(): Table {
    var v0, v1 := Shannon(0, True(), iset{}), Shannon(1, True(), iset{});
    Table(map[1 := Node(0, ONE, ZERO), 2 := Node(1, ONE, ZERO), 3 := Node(0, Edge(2, false), ZERO)],
          map[0 := 5, 1 := 1, 2 := 2, 3 := 1],
          map[1 := v0, 2 := v1, 3 := Shannon(0, v1, iset{})],
          multiset{1, 2, 3})
  }

  /** The same after the reference to v0.v1 has been given up. */
  ghost function Cleaned(): Table {
    Example().(refs := map[0 := 4, 1 := 1, 2 := 1, 3 := 0], ext := multiset{1, 2})
  }

  lemma ExampleEdges(n: nat)
    ensures var g := Example().g;
      && InEdges(g, {1, 2}, n) == Hits(g[1], n) + Hits(g[2], n)
      && InEdges(g, {1, 2, 3}, n) == Hits(g[1], n) + Hits(g[2], n) + Hits(g[3], n)
  {
    var g := Example().g;
    assert InEdges(g, {}, n) == 0;
    AddParent(g, {}, 1, n);
    AddParent(g, {1}, 2, n);
    AddParent(g, {1, 2}, 3, n);
    assert {} + {1} == {1} && {1} + {2} == {1, 2} && {1, 2} + {3} == {1, 2, 3};
  }

  lemma ExampleCounts()
    ensures RefsOk(Example().g, Example().refs, Example().ext, multiset{}, {1, 2, 3})
    ensures RefsOk(Cleaned().g, Cleaned().refs, Cleaned().ext, multiset{}, {1, 2})
  {
    hide InEdges;
    var s, t := Example(), Cleaned();
    forall n: nat
      ensures Balanced(s.g, s.refs, s.ext, multiset{}, {1, 2, 3}, n)
      ensures Balanced(t.g, t.refs, t.ext, multiset{}, {1, 2}, n)
    {
      ExampleEdges(n);
    }
  }

  lemma ThreeNodes(g: Nodes)
    requires g.Keys == {1, 2, 3} && g[1] == Node(0, ONE, ZERO) && g[2] == Node(1, ONE, ZERO)
    requires g[3] == Node(0, Edge(2, false), ZERO)
    ensures Shape(g, [0, 1])
  {
    assert NodeOk(g, [0, 1], 1) && NodeOk(g, [0, 1], 2) && NodeOk(g, [0, 1], 3);
    forall n, k | Twins(g, n, k)
      ensures n == k
    {
      assert n in {1, 2, 3} && k in {1, 2, 3};
    }
  }

  lemma ExampleShape()
    ensures Shape(Example().g, [0, 1])
  {
    hide Shape;
    ThreeNodes(Example().g);
  }

  lemma ExampleDenotes()
    ensures Denotes(Example().g, Example().den)
  {
    hide Shannon, True;
    var s := Example();
    ConstSem(s.den);
    assert NodeDenotes(s.g, s.den, 1) && NodeDenotes(s.g, s.den, 2);
    assert Sem(s.den, Edge(2, false)) == s.den[2];
    assert NodeDenotes(s.g, s.den, 3);
  }

  lemma ExampleOk()
    ensures TableOk(Example(), [0, 1]) && TableOk(Cleaned(), [0, 1])
  {
    ExampleShape();
    ExampleDenotes();
    ExampleCounts();
    hide Shape, Denotes, RefsOk;
    assert Live(Example().g, Example().refs) == {1, 2, 3};
    assert Live(Cleaned().g, Cleaned().refs) == {1, 2};
  }

  /** With v0.v1 held by the sum-of-products cache only, the garbage collection leaves the result of
      ite(v0, v1, 0) in the computed table although its node is gone. */
  lemma GcLeavesDangling()
    ensures var s, sop := Example(), [Edge(3, false)];
      var e := Entry(OpIte(Edge(1, false)), Edge(2, false), ZERO, Edge(3, false));
      && TableOk(s, [0, 1]) && Shape(s.g, [0, 1]) && Tables.Nodes(sop) <= s.ext
      && CacheOk([e], s.g, [0, 1], [0, 1], s.den) && Flushed(e, s.refs) == e
      && !NamedIn(e, Left(s, [0, 1], sop)) && !Harmless(s, [0, 1], sop)
  {
    var s, sop := Example(), [Edge(3, false)];
    ExampleEntry();
    ExampleHeld();
    ExampleOk();
    ExampleLost();
    hide TableOk, CacheOk, Shape, Reached, Tables.Nodes;
    assert sop[0].node == 3;
  }

  lemma ExampleEntry()
    ensures var s, e := Example(), Entry(OpIte(Edge(1, false)), Edge(2, false), ZERO, Edge(3, false));
      CacheOk([e], s.g, [0, 1], [0, 1], s.den) && Flushed(e, s.refs) == e
  {
    ExampleOk();
    ConstSem(Example().den);
    var e := Entry(OpIte(Edge(1, false)), Edge(2, false), ZERO, Edge(3, false));
    assert [e][0] == e;
  }

  lemma ExampleHeld()
    ensures Tables.Nodes([Edge(3, false)]) == multiset{3} <= Example().ext
    ensures Example().ext - Tables.Nodes([Edge(3, false)]) == multiset{1, 2}
  {
    assert Tables.Nodes([Edge(3, false)]) == multiset{3} + Tables.Nodes([]);
  }

  lemma ExampleLost()
    ensures Shape(Example().g, [0, 1]) && !Reached(Example(), [0, 1], multiset{1, 2}, 3)
  {
    var s, t := Example(), Cleaned();
    ExampleOk();
    AliveIsReached(t, [0, 1], 3);
    assert Frozen(s.refs) == {} && Frozen(t.refs) == {};
    SameReached(s, t, [0, 1], 3);
  }

  /** What is reached depends on the graph, the frozen nodes and what is held. */
  lemma SameReached(s: Table, t: Table, ranks: seq<nat>, n: nat)
    requires Shape(s.g, ranks) && t.g == s.g && Frozen(t.refs) == Frozen(s.refs)
    ensures Reached(s, ranks, t.ext, n) <==> Reached(t, ranks, t.ext, n)
  {
    if h: nat :| ReachedFrom(s, ranks, t.ext, h, n) {
      assert ReachedFrom(t, ranks, t.ext, h, n);
    }
    if h: nat :| ReachedFrom(t, ranks, t.ext, h, n) {
      assert ReachedFrom(s, ranks, t.ext, h, n);
    }
  }
}
