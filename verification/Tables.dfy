/** Reference counting, garbage collection, the computed table and node creation. */
module Tables {
  import opened Functions
  import opened Graph
  import opened RefCount
  import opened State

  lemma LiveSame(g: Nodes, refs: Refs, refs': Refs)
    requires forall n {:trigger n in g} :: n in g ==> (Count(refs, n) > 0 <==> Count(refs', n) > 0)
    ensures Live(g, refs) == Live(g, refs')
  {
  }

  ghost function Bumped(s: Table, n: nat): Table {
    s.(refs := s.refs[n := Incr(Count(s.refs, n))], ext := s.ext + multiset{n})
  }

  lemma BumpOk(s: Table, ranks: seq<nat>, e: Edge)
    requires TableOk(s, ranks) && Alive(s.g, s.refs, e)
    ensures TableOk(Bumped(s, e.node), ranks) && Kept(s, Bumped(s, e.node))
  {
    IncrOk(s.g, s.refs, s.ext, multiset{}, Live(s.g, s.refs), e.node);
    LiveSame(s.g, s.refs, Bumped(s, e.node).refs);
  }

  /** bdd_assign on an edge that is alive. */
  method AddRef(m: Manager, e: Edge)
    requires m.Core() && Alive(m.nodes, m.refs, e)
    modifies m`refs, m`ext
    ensures m.Core() && m.ext == old(m.ext) + multiset{e.node}
    ensures m.refs == old(m.refs)[e.node := Incr(old(Count(m.refs, e.node)))]
    ensures Kept(old(m.Tab()), m.Tab())
  {
    BumpOk(m.Tab(), m.ranks, e);
    m.refs := m.refs[e.node := Incr(Count(m.refs, e.node))];
    m.ext := m.ext + multiset{e.node};
  }

  /** Giving up one reference to a node that stays alive, or to the terminal. */
  lemma DropOk(s: Table, ranks: seq<nat>, n: nat)
    requires TableOk(s, ranks) && s.ext[n] > 0 && (n == 0 || Count(s.refs, n) > 1)
    ensures 0 < Count(s.refs, n) <= MAXREF
    ensures TableOk(s.(refs := s.refs[n := Decr(Count(s.refs, n))], ext := s.ext - multiset{n}), ranks)
  {
    DecrOk(s.g, s.refs, s.ext, Live(s.g, s.refs), n);
    LiveSame(s.g, s.refs, s.refs[n := Decr(Count(s.refs, n))]);
  }

  /** Giving up the last reference: the node dies and its own two edges become held ones. */
  lemma DieOk(s: Table, ranks: seq<nat>, n: nat)
    requires TableOk(s, ranks) && s.ext[n] > 0 && n in s.g && Count(s.refs, n) == 1
    ensures TableOk(s.(refs := s.refs[n := 0], ext := s.ext - multiset{n} + Kids(s.g[n])), ranks)
  {
    var refs' := s.refs[n := 0];
    DecrOk(s.g, s.refs, s.ext, Live(s.g, s.refs), n);
    OpenOk(s.g, refs', s.ext - multiset{n}, multiset{}, Live(s.g, s.refs), n);
    assert Live(s.g, refs') == Live(s.g, s.refs) - {n};
  }

  /** The counts after bdd_free in memory h, to a depth of fuel: a node that dies gives up its own two
      references. */
  function Released(h: Nodes, refs: Refs, n: nat, fuel: nat): Refs
    decreases fuel
  {
    var c := Count(refs, n);
    if c == 0 || c == MAXREF then refs
    else if c == 1 && n in h && fuel > 0 then
      Released(h, Released(h, refs[n := 0], h[n].thn.node, fuel - 1), h[n].els.node, fuel - 1)
    else refs[n := c - 1]
  }

  /** bdd_free: give up one held reference; a node that dies gives up its own two. */
  method Free(m: Manager, e: Edge)
    requires m.Core() && m.ext[e.node] > 0
    modifies m`refs, m`ext
    ensures m.Core() && m.ext == old(m.ext) - multiset{e.node}
    ensures FrozenKept(old(m.refs), m.refs) && FrozenSame(old(m.refs), m.refs)
    ensures m.refs == Released(m.nodes, old(m.refs), e.node, TERMID)
    decreases TERMID - Rank(m.nodes, m.ranks, e), 2
  {
    hide TableOk, Inverse, FrozenKept, FrozenSame;
    FreeSame(m, e, TERMID);
    SameKept(old(m.refs), m.refs);
  }

  method FreeSame(m: Manager, e: Edge, ghost fuel: nat)
    requires m.Core() && m.ext[e.node] > 0 && fuel + Rank(m.nodes, m.ranks, e) >= TERMID
    modifies m`refs, m`ext
    ensures m.Core() && m.ext == old(m.ext) - multiset{e.node} && FrozenSame(old(m.refs), m.refs)
    ensures m.refs == Released(m.nodes, old(m.refs), e.node, fuel)
    decreases TERMID - Rank(m.nodes, m.ranks, e), 1
  {
    hide TableOk, Inverse, Kids, Rank, FrozenSame;
    var n := e.node;
    ghost var refs0, x := m.refs, m.ext - multiset{n};
    HeldOk(m.Tab(), m.ranks, n);
    if m.refs[n] == MAXREF {
      SameUpdate(m.refs, n, MAXREF);
      DropOk(m.Tab(), m.ranks, n);
      assert m.refs == m.refs[n := Decr(Count(m.refs, n))];
      m.ext := x;
    } else if m.refs[n] == 1 && n in m.nodes {
      SameUpdate(m.refs, n, 0);
      DieOk(m.Tab(), m.ranks, n);
      RankBelow(m.Tab(), m.ranks, e);
      m.refs := m.refs[n := 0];
      m.ext := x + Kids(m.nodes[n]);
      ghost var refs1 := m.refs;
      FreeKids(m, e, x, fuel - 1);
      SameTrans(refs0, refs1, m.refs);
    } else {
      SameUpdate(m.refs, n, m.refs[n] - 1);
      DropOk(m.Tab(), m.ranks, n);
      m.refs := m.refs[n := m.refs[n] - 1];
      m.ext := x;
    }
  }

  lemma RankBelow(s: Table, ranks: seq<nat>, e: Edge)
    requires TableOk(s, ranks) && e.node in s.g
    ensures Rank(s.g, ranks, e) < TERMID
  {
    assert NodeOk(s.g, ranks, e.node);
  }

  /** The references a dead node held are given up in turn. */
  method FreeKids(m: Manager, e: Edge, ghost x: multiset<nat>, ghost fuel: nat)
    requires m.Core() && e.node in m.nodes && m.ext == x + Kids(m.nodes[e.node])
    requires fuel + 1 + Rank(m.nodes, m.ranks, e) >= TERMID
    modifies m`refs, m`ext
    ensures m.Core() && m.ext == x && FrozenSame(old(m.refs), m.refs)
    ensures var nd := m.nodes[e.node];
      m.refs == Released(m.nodes, Released(m.nodes, old(m.refs), nd.thn.node, fuel), nd.els.node, fuel)
    decreases TERMID - Rank(m.nodes, m.ranks, e), 0
  {
    hide TableOk, Inverse, Kids, Rank, FrozenKept, FrozenSame, Released;
    ghost var refs0 := m.refs;
    var nd := m.nodes[e.node];
    EdgeChildRanks(m.Tab(), m.ranks, e);
    KidsCancel(x, nd);
    FreeSame(m, nd.thn, fuel);
    ghost var refs1 := m.refs;
    FreeSame(m, nd.els, fuel);
    SameTrans(refs0, refs1, m.refs);
  }

  lemma HeldOk(s: Table, ranks: seq<nat>, n: nat)
    requires TableOk(s, ranks) && s.ext[n] > 0
    ensures n in s.refs && 0 < s.refs[n] <= MAXREF
    ensures n == 0 || n in s.g
  {
    DecrOk(s.g, s.refs, s.ext, Live(s.g, s.refs), n);
  }

  /** The table in the middle of a reclaim: debt counts still to be added. */
  ghost predicate OwingOk(s: Table, ranks: seq<nat>, debt: multiset<nat>) {
    && WF(s.g, ranks, s.den)
    && s.refs.Keys == s.g.Keys + {0}
    && RefsOk(s.g, s.refs, s.ext, debt, Live(s.g, s.refs))
  }

  /** Counts only grow, and only from rank r on. */
  ghost predicate Grown(s: Table, t: Table, ranks: seq<nat>, r: nat) {
    && s.g == t.g && s.den == t.den && s.ext == t.ext
    && FrozenKept(s.refs, t.refs)
    && (forall n {:trigger Count(t.refs, n)} :: Count(s.refs, n) <= Count(t.refs, n))
    && (forall n {:trigger Count(t.refs, n)} ::
          Rank(s.g, ranks, Edge(n, false)) < r ==> Count(t.refs, n) == Count(s.refs, n))
  }

  lemma GrownTrans(s: Table, t: Table, u: Table, ranks: seq<nat>, r: nat, r1: nat, r2: nat)
    requires Grown(s, t, ranks, r1) && Grown(t, u, ranks, r2) && r <= r1 && r <= r2
    ensures Grown(s, u, ranks, r)
  {
    forall n
      ensures Count(s.refs, n) <= Count(u.refs, n)
      ensures Rank(s.g, ranks, Edge(n, false)) < r ==> Count(u.refs, n) == Count(s.refs, n)
    {
      assert Count(s.refs, n) <= Count(t.refs, n) <= Count(u.refs, n);
    }
  }

  ghost function Paid(s: Table, n: nat): Table {
    s.(refs := s.refs[n := Incr(Count(s.refs, n))])
  }

  lemma PaidGrown(s: Table, ranks: seq<nat>, n: nat)
    ensures Grown(s, Paid(s, n), ranks, Rank(s.g, ranks, Edge(n, false)))
  {
  }

  lemma PayAliveOk(s: Table, ranks: seq<nat>, debt: multiset<nat>, e: Edge)
    requires OwingOk(s, ranks, debt) && debt[e.node] > 0 && Alive(s.g, s.refs, e)
    ensures OwingOk(Paid(s, e.node), ranks, debt - multiset{e.node})
    ensures Count(s.refs, e.node) <= MAXREF
  {
    assert Balanced(s.g, s.refs, s.ext, debt, Live(s.g, s.refs), e.node);
    PayOk(s.g, s.refs, s.ext, debt, Live(s.g, s.refs), e.node);
    LiveSame(s.g, s.refs, Paid(s, e.node).refs);
  }

  lemma PayDeadOk(s: Table, ranks: seq<nat>, debt: multiset<nat>, n: nat)
    requires OwingOk(s, ranks, debt) && debt[n] > 0 && n in s.g && Count(s.refs, n) == 0
    ensures OwingOk(Paid(s, n), ranks, debt - multiset{n} + Kids(s.g[n]))
  {
    PayOk(s.g, s.refs, s.ext, debt, Live(s.g, s.refs), n);
    OweOk(s.g, Paid(s, n).refs, s.ext, debt - multiset{n}, Live(s.g, s.refs), n);
    assert Live(s.g, Paid(s, n).refs) == Live(s.g, s.refs) + {n};
  }

  /** reclaim_aux: count one more reference; a dead node comes back with all it points to. */
  method ReclaimAux(m: Manager, e: Edge, ghost debt: multiset<nat>)
    requires OwingOk(m.Tab(), m.ranks, debt) && debt[e.node] > 0 && In(m.nodes, e)
    modifies m`refs
    ensures OwingOk(m.Tab(), m.ranks, debt - multiset{e.node})
    ensures Grown(old(m.Tab()), m.Tab(), m.ranks, Rank(m.nodes, m.ranks, e))
    decreases TERMID - Rank(m.nodes, m.ranks, e)
  {
    hide OwingOk, Shape, Kids, Grown;
    OwingFacts(m.Tab(), m.ranks, debt, e);
    var n := e.node;
    ghost var s := m.Tab();
    ghost var r := Rank(m.nodes, m.ranks, e);
    PaidGrown(s, m.ranks, n);
    if n in m.nodes && m.refs[n] == 0 {
      var nd := m.nodes[n];
      PayDeadOk(s, m.ranks, debt, n);
      ChildRanks(m.nodes, m.ranks, n);
      KidsCancel(debt - multiset{n}, nd);
      m.refs := m.refs[n := 1];
      assert m.Tab() == Paid(s, n);
      ReclaimAux(m, nd.thn, debt - multiset{n} + Kids(nd));
      ghost var t := m.Tab();
      ReclaimAux(m, nd.els, debt - multiset{n} + Kids(nd) - multiset{nd.thn.node});
      GrownTrans(s, Paid(s, n), t, m.ranks, r, r, Rank(m.nodes, m.ranks, nd.thn));
      GrownTrans(s, t, m.Tab(), m.ranks, r, r, Rank(m.nodes, m.ranks, nd.els));
    } else {
      PayAliveOk(s, m.ranks, debt, e);
      if m.refs[n] < MAXREF {
        m.refs := m.refs[n := m.refs[n] + 1];
      } else {
        assert m.refs == m.refs[n := Incr(Count(m.refs, n))];
      }
      assert m.Tab() == Paid(s, n);
    }
  }

  lemma OwingFacts(s: Table, ranks: seq<nat>, debt: multiset<nat>, e: Edge)
    requires OwingOk(s, ranks, debt) && In(s.g, e)
    ensures e.node in s.refs && Shape(s.g, ranks)
    ensures Rank(s.g, ranks, e) == Rank(s.g, ranks, Edge(e.node, false))
  {
  }

  lemma BorrowOk(s: Table, ranks: seq<nat>, k: multiset<nat>)
    requires TableOk(s, ranks)
    ensures OwingOk(s.(ext := s.ext + k), ranks, k)
  {
    forall n: nat
      ensures Balanced(s.g, s.refs, s.ext + k, k, Live(s.g, s.refs), n)
    {
      assert Balanced(s.g, s.refs, s.ext, multiset{}, Live(s.g, s.refs), n);
    }
  }

  /** A dead node whose children have been counted on its behalf comes alive. */
  lemma ReviveOk(s: Table, ranks: seq<nat>, n: nat, ext: multiset<nat>)
    requires n in s.g && Count(s.refs, n) == 0 && s.ext == ext + Kids(s.g[n])
    requires OwingOk(s, ranks, multiset{})
    ensures TableOk(s.(refs := s.refs[n := 1], ext := ext + multiset{n}), ranks)
    ensures Count(s.refs, s.g[n].thn.node) > 0 && Count(s.refs, s.g[n].els.node) > 0
  {
    var refs' := s.refs[n := 1];
    IncrOk(s.g, s.refs, s.ext, multiset{}, Live(s.g, s.refs), n);
    KidsCancel(ext, s.g[n]);
    HeldCount(s, s.g[n].thn.node);
    HeldCount(s, s.g[n].els.node);
    CloseOk(s.g, refs', s.ext + multiset{n}, multiset{}, Live(s.g, s.refs), n);
    assert s.ext + multiset{n} - Kids(s.g[n]) == ext + multiset{n};
    assert Live(s.g, refs') == Live(s.g, s.refs) + {n};
  }

  lemma HeldCount(s: Table, n: nat)
    requires RefsOk(s.g, s.refs, s.ext, multiset{}, Live(s.g, s.refs)) && s.ext[n] > 0
    ensures Count(s.refs, n) > 0
  {
    DecrOk(s.g, s.refs, s.ext, Live(s.g, s.refs), n);
  }

  /** reclaim followed by BDD_INCR_REF: a dead node found in the computed table is alive again,
      with everything below it, and held once. */
  method Reclaim(m: Manager, e: Edge)
    requires m.Core() && e.node in m.nodes && Count(m.refs, e.node) == 0
    modifies m`refs, m`ext
    ensures m.Core() && m.ext == old(m.ext) + multiset{e.node}
    ensures Kept(old(m.Tab()), m.Tab())
  {
    hide Shape, OwingOk, Kids, Inverse, RefsOk, Denotes;
    ghost var s := m.Tab();
    var n := e.node;
    var nd := m.nodes[n];
    ChildRanks(m.nodes, m.ranks, n);
    BorrowOk(s, m.ranks, Kids(nd));
    m.ext := m.ext + Kids(nd);
    ghost var s1 := m.Tab();
    KidsSpent(nd);
    ReclaimAux(m, nd.thn, Kids(nd));
    ghost var s2 := m.Tab();
    ReclaimAux(m, nd.els, Kids(nd) - multiset{nd.thn.node});
    GrownTrans(s1, s2, m.Tab(), m.ranks, Min(Rank(m.nodes, m.ranks, nd.thn), Rank(m.nodes, m.ranks, nd.els)),
               Rank(m.nodes, m.ranks, nd.thn), Rank(m.nodes, m.ranks, nd.els));
    ReviveOk(m.Tab(), m.ranks, n, s.ext);
    ghost var s3 := m.Tab();
    OwingFacts(s3, m.ranks, multiset{}, e);
    m.refs := m.refs[n := Incr(m.refs[n])];
    m.ext := s.ext + multiset{n};
    CoreKeys(s, m.ranks);
    GrownKept(s, s3, m.ranks, Min(Rank(m.nodes, m.ranks, nd.thn), Rank(m.nodes, m.ranks, nd.els)), n);
  }

  lemma CoreKeys(s: Table, ranks: seq<nat>)
    requires TableOk(s, ranks)
    ensures s.den.Keys == s.g.Keys && 0 !in s.g
  {
  }

  lemma GrownKept(s: Table, t: Table, ranks: seq<nat>, r: nat, n: nat)
    requires s.den.Keys == s.g.Keys && Grown(s.(ext := t.ext), t, ranks, r)
    requires Count(t.refs, n) == 0
    ensures Kept(s, t.(refs := t.refs[n := 1], ext := s.ext + multiset{n}))
  {
    var refs' := t.refs[n := 1];
    forall k: nat
      ensures Count(s.refs, k) > 0 ==> Count(refs', k) > 0
    {
      assert Count(s.refs, k) <= Count(t.refs, k);
    }
    assert n !in Frozen(t.refs);
    assert Frozen(t.refs) <= Frozen(t.refs[n := 1]);
  }

  ghost predicate CachedOk(op: Op, g: Edge, h: Edge, r: Edge, s: Table, ranks: seq<nat>, space: seq<nat>) {
    Named(Entry(op, g, h, r), s.g) && Right(Entry(op, g, h, r), s.g, ranks, space, s.den)
  }

  function Index(m: Manager, op: Op, g: Edge, h: Edge): nat
    reads m
    requires |m.cache| > 0
    ensures Index(m, op, g, h) < |m.cache|
  {
    m.hash(op, g, h) % |m.cache|
  }

  /** The computed table has the answer R for these arguments. */
  ghost predicate Remembers(m: Manager, op: Op, g: Edge, h: Edge, R: Edge)
    reads m
  {
    |m.cache| > 0 && m.cache[Index(m, op, g, h)] == Entry(op, g, h, R)
  }

  /** bdd_lookup_computed_table, with the BDD_INCR_REF every caller does on a hit. */
  method Lookup(m: Manager, op: Op, g: Edge, h: Edge) returns (hit: bool, R: Edge)
    requires m.Valid()
    modifies m`refs, m`ext
    ensures m.Valid() && Kept(old(m.Tab()), m.Tab())
    ensures hit ==> CachedOk(op, g, h, R, m.Tab(), m.ranks, m.space)
    ensures if hit then Remembers(m, op, g, h, R) else forall r :: !Remembers(m, op, g, h, r)
    ensures m.ext == if hit then old(m.ext) + multiset{R.node} else old(m.ext)
  {
    hide TableOk, CacheOk, Right, Inverse;
    var entry := m.cache[Index(m, op, g, h)];
    CacheEntryOk(m.cache, m.Tab(), m.ranks, m.space, Index(m, op, g, h));
    CoreKeys(m.Tab(), m.ranks);
    if entry.Entry? && entry.op == op && entry.g == g && entry.h == h {
      hit, R := true, entry.r;
      if R.node in m.nodes && Count(m.refs, R.node) == 0 {
        Reclaim(m, R);
      } else {
        AddRef(m, R);
      }
    } else {
      KeptRefl(m.Tab());
      hit, R := false, ONE;
    }
  }

  lemma CacheEntryOk(cache: seq<Entry>, s: Table, ranks: seq<nat>, space: seq<nat>, i: nat)
    requires CacheOk(cache, s.g, ranks, space, s.den) && i < |cache|
    ensures Named(cache[i], s.g) && Right(cache[i], s.g, ranks, space, s.den)
  {
  }

  lemma CacheInsert(cache: seq<Entry>, s: Table, ranks: seq<nat>, space: seq<nat>, i: nat, e: Entry)
    requires CacheOk(cache, s.g, ranks, space, s.den) && i < |cache|
    requires Named(e, s.g) && Right(e, s.g, ranks, space, s.den)
    ensures CacheOk(cache[i := e], s.g, ranks, space, s.den)
  {
  }

  /** bdd_insert_computed_table: overwrite whatever the slot held. */
  method Insert(m: Manager, op: Op, g: Edge, h: Edge, R: Edge)
    requires m.Valid() && CachedOk(op, g, h, R, m.Tab(), m.ranks, m.space)
    modifies m`cache
    ensures m.Valid() && m.cache == old(m.cache)[old(Index(m, op, g, h)) := Entry(op, g, h, R)]
    ensures Remembers(m, op, g, h, R)
  {
    hide TableOk, CacheOk, Right, Inverse, Named;
    var i := Index(m, op, g, h);
    CacheInsert(m.cache, m.Tab(), m.ranks, m.space, i, Entry(op, g, h, R));
    m.cache := m.cache[i := Entry(op, g, h, R)];
  }

  predicate Dead(refs: Refs, e: Edge) {
    Count(refs, e.node) == 0
  }

  /** The entry names no dead node. */
  predicate AllAlive(e: Entry, refs: Refs) {
    e.Entry? ==>
      && !Dead(refs, e.g) && !Dead(refs, e.h) && !Dead(refs, e.r)
      && (e.op.OpIte? ==> !Dead(refs, e.op.f))
  }

  /** bdd_flush_computed_table. */
  method Flush(m: Manager)
    requires m.Core() && CacheOk(m.cache, m.nodes, m.ranks, m.space, m.den)
    modifies m`cache
    ensures m.Core() && CacheOk(m.cache, m.nodes, m.ranks, m.space, m.den)
    ensures |m.cache| == old(|m.cache|)
    ensures forall i {:trigger m.cache[i]} :: 0 <= i < |m.cache| ==>
      m.cache[i] == if AllAlive(old(m.cache[i]), m.refs) then old(m.cache[i]) else Empty
  {
    hide TableOk, Right, Named, Inverse;
    ghost var c := m.cache;
    for i := 0 to |m.cache|
      invariant |m.cache| == |c| && m.Core()
      invariant forall j {:trigger m.cache[j]} :: 0 <= j < |c| ==>
        m.cache[j] == if j < i && !AllAlive(c[j], m.refs) then Empty else c[j]
    {
      if !AllAlive(m.cache[i], m.refs) {
        m.cache := m.cache[i := Empty];
      }
    }
    FlushedOk(c, m.cache, m.Tab(), m.ranks, m.space);
  }

  lemma FlushedOk(c: seq<Entry>, c': seq<Entry>, s: Table, ranks: seq<nat>, space: seq<nat>)
    requires CacheOk(c, s.g, ranks, space, s.den) && |c| == |c'|
    requires forall j {:trigger c'[j]} :: 0 <= j < |c| ==> c'[j] == c[j] || c'[j] == Empty
    ensures CacheOk(c', s.g, ranks, space, s.den)
  {
  }

  ghost function Nodes(es: seq<Edge>): multiset<nat> {
    if es == [] then multiset{} else multiset{es[0].node} + Nodes(es[1..])
  }

  /** bdd_cleanup_sop_cache: give up every reference the sum-of-products cache holds. */
  method CleanupSop(m: Manager)
    requires m.Core() && Nodes(m.sop) <= m.ext
    modifies m`refs, m`ext, m`sop
    ensures m.Core() && m.sop == [] && m.ext == old(m.ext) - old(Nodes(m.sop))
    ensures FrozenSame(old(m.refs), m.refs)
    ensures old(m.sop) == [] ==> m.refs == old(m.refs) && m.ext == old(m.ext)
  {
    hide TableOk, Inverse, Frozen;
    ghost var rest := m.ext - Nodes(m.sop);
    ghost var refs0 := m.refs;
    NodesSplit(m.ext, m.sop);
    while m.sop != []
      invariant m.Core() && m.ext == rest + Nodes(m.sop)
      invariant FrozenSame(refs0, m.refs)
      invariant old(m.sop) == [] ==> m.refs == old(m.refs) && m.sop == []
      decreases |m.sop|
    {
      ghost var refs1 := m.refs;
      PopSop(m, rest);
      SameTrans(refs0, refs1, m.refs);
    }
  }

  method PopSop(m: Manager, ghost rest: multiset<nat>)
    requires m.Core() && m.sop != [] && m.ext == rest + Nodes(m.sop)
    modifies m`refs, m`ext, m`sop
    ensures m.Core() && m.sop == old(m.sop)[1..] && m.ext == rest + Nodes(m.sop)
    ensures FrozenSame(old(m.refs), m.refs)
  {
    hide TableOk, Inverse, FrozenSame, Nodes;
    NodesPop(rest, m.sop);
    var e := m.sop[0];
    m.sop := m.sop[1..];
    Free(m, e);
  }

  lemma NodesSplit(ext: multiset<nat>, es: seq<Edge>)
    requires Nodes(es) <= ext
    ensures ext == (ext - Nodes(es)) + Nodes(es)
  {
  }

  lemma NodesPop(rest: multiset<nat>, es: seq<Edge>)
    requires es != []
    ensures (rest + Nodes(es))[es[0].node] > 0
    ensures rest + Nodes(es) - multiset{es[0].node} == rest + Nodes(es[1..])
  {
  }

  ghost function Swept(s: Table): Table {
    Table(map n | n in s.g && Count(s.refs, n) > 0 :: s.g[n],
          map n | n in s.refs && (n == 0 || Count(s.refs, n) > 0) :: s.refs[n],
          map n | n in s.den && Count(s.refs, n) > 0 :: s.den[n],
          s.ext)
  }

  lemma SweptShape(s: Table, ranks: seq<nat>)
    requires TableOk(s, ranks)
    ensures WF(Swept(s).g, ranks, Swept(s).den)
  {
    var t := Swept(s);
    assert t.den.Keys == t.g.Keys;
    forall k | k in t.g
      ensures NodeOk(t.g, ranks, k) && NodeDenotes(t.g, t.den, k)
    {
      assert NodeOk(s.g, ranks, k) && NodeDenotes(s.g, s.den, k);
      ChildCounted(s.g, s.refs, s.ext, Live(s.g, s.refs), k);
    }
    forall k, l | Twins(t.g, k, l)
      ensures k == l
    {
      assert Twins(s.g, k, l);
    }
  }

  lemma SweptOk(s: Table, ranks: seq<nat>)
    requires TableOk(s, ranks)
    ensures TableOk(Swept(s), ranks) && Kept(s, Swept(s))
  {
    var t := Swept(s);
    SweptShape(s, ranks);
    assert Live(t.g, t.refs) == Live(s.g, s.refs);
    RegraphOk(s.g, t.g, s.refs, t.refs, s.ext, multiset{}, Live(s.g, s.refs));
    assert Frozen(s.refs) <= Frozen(t.refs);
  }

  /** The table when the ranks below i have been swept. */
  ghost function SweptBelow(s: Table, ranks: seq<nat>, i: nat): map<nat, Node> {
    map n | n in s.g && (Count(s.refs, n) > 0 || VarRank(ranks, s.g[n].varid) >= i) :: s.g[n]
  }

  lemma SweptBelowEnds(s: Table, ranks: seq<nat>)
    requires TableOk(s, ranks)
    ensures SweptBelow(s, ranks, 0) == s.g
    ensures SweptBelow(s, ranks, |ranks|) == Swept(s).g
  {
    forall n | n in s.g
      ensures VarRank(ranks, s.g[n].varid) < |ranks|
    {
      assert NodeOk(s.g, ranks, n);
    }
  }

  lemma SweptBelowStep(s: Table, ranks: seq<nat>, space: seq<nat>, i: nat)
    requires TableOk(s, ranks) && Inverse(ranks, space) && i < |space|
    ensures var g := SweptBelow(s, ranks, i);
      SweptBelow(s, ranks, i + 1) == map n | n in g && (g[n].varid != space[i] || Count(s.refs, n) > 0) :: g[n]
  {
    forall n | n in s.g
      ensures VarRank(ranks, s.g[n].varid) == i <==> s.g[n].varid == space[i]
    {
      assert NodeOk(s.g, ranks, n);
    }
  }

  /** The loop of bdd_gc_aux over the tables of all ranks. */
  method Sweep(m: Manager)
    requires TableOk(m.Tab(), m.ranks) && Inverse(m.ranks, m.space)
    modifies m`nodes, m`refs, m`den
    ensures m.Tab() == Swept(old(m.Tab()))
  {
    hide TableOk, Inverse, Live;
    ghost var s := m.Tab();
    SweptBelowEnds(s, m.ranks);
    InverseSize(m.ranks, m.space);
    for i := 0 to |m.space|
      invariant m.nodes == SweptBelow(s, m.ranks, i) && m.refs == s.refs && m.den == s.den
    {
      SweptBelowStep(s, m.ranks, m.space, i);
      m.nodes := map n | n in m.nodes && (m.nodes[n].varid != m.space[i] || Count(m.refs, n) > 0) :: m.nodes[n];
    }
    m.refs := map n | n in m.refs && (n == 0 || Count(m.refs, n) > 0) :: m.refs[n];
    m.den := map n | n in m.den && Count(s.refs, n) > 0 :: m.den[n];
  }

  /** bdd_gc_aux without the hook: drop the sum-of-products cache, then unlink the dead nodes of
      every rank's table. */
  method GcAux(m: Manager)
    requires m.Core() && Nodes(m.sop) <= m.ext
    modifies m`nodes, m`refs, m`den, m`ext, m`sop
    ensures m.Core() && m.sop == [] && m.ext == old(m.ext) - old(Nodes(m.sop))
    ensures old(m.sop) == [] ==> m.Tab() == Swept(old(m.Tab()))
    ensures FrozenKept(old(m.refs), m.refs) && FrozenSame(old(m.refs), m.refs)
    ensures forall n {:trigger n in m.nodes} :: n in m.nodes <==> n in old(m.nodes) && Count(m.refs, n) > 0
    ensures forall n {:trigger n in m.nodes} :: n in m.nodes ==>
      m.nodes[n] == old(m.nodes)[n] && n in m.den && n in old(m.den) && m.den[n] == old(m.den)[n]
  {
    hide TableOk, Inverse, Swept;
    CleanupSop(m);
    SameKept(old(m.refs), m.refs);
    ghost var s := m.Tab();
    SweptOk(s, m.ranks);
    CoreKeys(s, m.ranks);
    SweptFacts(s);
    Sweep(m);
  }

  lemma InverseSize(ranks: seq<nat>, space: seq<nat>)
    requires Inverse(ranks, space)
    ensures |space| == |ranks|
  {
  }

  lemma SweptFacts(s: Table)
    requires s.den.Keys == s.g.Keys && 0 !in s.g
    ensures Frozen(s.refs) == Frozen(Swept(s).refs)
    ensures forall n {:trigger n in Swept(s).g} :: n in Swept(s).g <==> n in s.g && Count(Swept(s).refs, n) > 0
    ensures forall n {:trigger n in Swept(s).g} :: n in Swept(s).g ==>
      Swept(s).g[n] == s.g[n] && n in Swept(s).den && n in s.den && Swept(s).den[n] == s.den[n]
  {
  }

  /** A table cleared of every entry that names a dead node names no node that the sweep removes. */
  lemma FlushSweepOk(c: seq<Entry>, s: Table, ranks: seq<nat>, space: seq<nat>)
    requires TableOk(s, ranks) && CacheOk(c, s.g, ranks, space, s.den)
    requires forall i {:trigger c[i]} :: 0 <= i < |c| ==> AllAlive(c[i], s.refs)
    ensures CacheOk(c, Swept(s).g, ranks, space, Swept(s).den)
  {
    var t := Swept(s);
    SweptFacts(s);
    SweptOk(s, ranks);
    forall i | 0 <= i < |c|
      ensures Named(c[i], t.g)
    {
      assert Named(c[i], s.g) && AllAlive(c[i], s.refs);
    }
    CacheFrame(c, s.g, s.den, t.g, t.den, ranks, space);
  }

  /** bdd_gc without the hook. With an empty sum-of-products cache the computed table is sound
      afterwards. */
  method Gc(m: Manager)
    requires m.Valid()
    modifies m`nodes, m`refs, m`den, m`ext, m`sop, m`cache
    ensures m.Valid() && m.ext == old(m.ext) && Kept(old(m.Tab()), m.Tab())
    ensures m.Tab() == Swept(old(m.Tab())) && |m.cache| == old(|m.cache|)
    ensures forall i {:trigger m.cache[i]} :: 0 <= i < |m.cache| ==>
      m.cache[i] == if AllAlive(old(m.cache[i]), old(m.refs)) then old(m.cache[i]) else Empty
  {
    hide TableOk, Inverse, CacheOk, Swept;
    ghost var s := m.Tab();
    Flush(m);
    SweptOk(s, m.ranks);
    ghost var c := m.cache;
    FlushSweepOk(c, s, m.ranks, m.space);
    GcAux(m);
    assert m.ext == s.ext - Nodes([]) == s.ext;
  }

  /** The slot of an entry in a table of the given size. */
  function SlotOf(hash: (Op, Edge, Edge) -> nat, e: Entry, size: nat): (s: nat)
    requires size > 0
    ensures s < size
  {
    if e.Entry? then hash(e.op, e.g, e.h) % size else 0
  }

  predicate Stays(e: Entry, refs: Refs) {
    e.Entry? && AllAlive(e, refs)
  }

  /** The slot of entry i holds it or an entry between i and k that belongs there too. */
  ghost predicate InSlot(c: seq<Entry>, k: nat, c': seq<Entry>, refs: Refs, hash: (Op, Edge, Edge) -> nat, i: nat)
    requires i < k <= |c| && |c'| > 0
  {
    exists j {:trigger c[j]} :: i <= j < k && Stays(c[j], refs)
      && SlotOf(hash, c[j], |c'|) == SlotOf(hash, c[i], |c'|) && c'[SlotOf(hash, c[i], |c'|)] == c[j]
  }

  /** The first k entries of c have been moved to c': an entry that names no dead node is in its slot,
      unless a later one that belongs there too is; and nothing else is there. */
  ghost predicate Rehashed(c: seq<Entry>, k: nat, c': seq<Entry>, refs: Refs, hash: (Op, Edge, Edge) -> nat)
    requires k <= |c| && |c'| > 0
  {
    && (forall i {:trigger InSlot(c, k, c', refs, hash, i)} :: 0 <= i < k && Stays(c[i], refs) ==>
          InSlot(c, k, c', refs, hash, i))
    && (forall s {:trigger c'[s]} :: 0 <= s < |c'| && c'[s].Entry? ==>
          Stays(c'[s], refs) && SlotOf(hash, c'[s], |c'|) == s && c'[s] in c[..k])
  }

  lemma InSlotNext(c: seq<Entry>, k: nat, c': seq<Entry>, refs: Refs, hash: (Op, Edge, Edge) -> nat, i: nat)
    requires i < k < |c| && |c'| > 0 && InSlot(c, k, c', refs, hash, i)
    ensures InSlot(c, k + 1, c', refs, hash, i)
    ensures Stays(c[k], refs) ==> InSlot(c, k + 1, c'[SlotOf(hash, c[k], |c'|) := c[k]], refs, hash, i)
  {
    hide Stays, SlotOf;
    var s, d := SlotOf(hash, c[k], |c'|), c'[SlotOf(hash, c[k], |c'|) := c[k]];
    var j :| i <= j < k && Stays(c[j], refs)
      && SlotOf(hash, c[j], |c'|) == SlotOf(hash, c[i], |c'|) && c'[SlotOf(hash, c[i], |c'|)] == c[j];
    var j' := if SlotOf(hash, c[i], |c'|) == s then k else j;
    assert Stays(c[k], refs) ==> d[SlotOf(hash, c[i], |d|)] == c[j'];
  }

  lemma RehashNext(c: seq<Entry>, k: nat, c': seq<Entry>, refs: Refs, hash: (Op, Edge, Edge) -> nat)
    requires k < |c| && |c'| > 0 && Rehashed(c, k, c', refs, hash)
    ensures !Stays(c[k], refs) ==> Rehashed(c, k + 1, c', refs, hash)
    ensures Stays(c[k], refs) ==> Rehashed(c, k + 1, c'[SlotOf(hash, c[k], |c'|) := c[k]], refs, hash)
  {
    hide AllAlive, SlotOf, InSlot;
    assert c[..k + 1] == c[..k] + [c[k]];
    var d := c'[SlotOf(hash, c[k], |c'|) := c[k]];
    forall i | 0 <= i < k && Stays(c[i], refs)
      ensures InSlot(c, k + 1, c', refs, hash, i) && (Stays(c[k], refs) ==> InSlot(c, k + 1, d, refs, hash, i))
    {
      assert InSlot(c, k, c', refs, hash, i);
      InSlotNext(c, k, c', refs, hash, i);
    }
    if Stays(c[k], refs) {
      OwnSlot(c, k, d, refs, hash);
    }
  }

  lemma OwnSlot(c: seq<Entry>, k: nat, d: seq<Entry>, refs: Refs, hash: (Op, Edge, Edge) -> nat)
    requires k < |c| && |d| > 0 && Stays(c[k], refs) && d[SlotOf(hash, c[k], |d|)] == c[k]
    ensures InSlot(c, k + 1, d, refs, hash, k)
  {
    assert c[k] == c[k];
  }

  /** bdd_extend_computed_table: rehash what names no dead node into a table twice the size. */
  method ExtendCache(m: Manager)
    requires m.Valid()
    modifies m`cache
    ensures m.Valid() && |m.cache| == 2 * old(|m.cache|)
    ensures Rehashed(old(m.cache), old(|m.cache|), m.cache, m.refs, m.hash)
  {
    hide TableOk, Inverse, CacheOk, Right, Rehashed, AllAlive;
    var entries := m.cache;
    m.cache := seq(2 * |entries|, _ => Empty);
    EmptyCacheOk(m.cache, m.Tab(), m.ranks, m.space);
    NoneRehashed(entries, m.cache, m.refs, m.hash);
    for i := 0 to |entries|
      invariant m.Valid() && |m.cache| == 2 * |entries| && Rehashed(entries, i, m.cache, m.refs, m.hash)
    {
      CacheEntryOk(entries, m.Tab(), m.ranks, m.space, i);
      RehashNext(entries, i, m.cache, m.refs, m.hash);
      if Stays(entries[i], m.refs) {
        Insert(m, entries[i].op, entries[i].g, entries[i].h, entries[i].r);
      }
    }
  }

  lemma NoneRehashed(c: seq<Entry>, c': seq<Entry>, refs: Refs, hash: (Op, Edge, Edge) -> nat)
    requires |c'| > 0 && forall i :: 0 <= i < |c'| ==> c'[i] == Empty
    ensures Rehashed(c, 0, c', refs, hash)
  {
  }

  lemma EmptyCacheOk(c: seq<Entry>, s: Table, ranks: seq<nat>, space: seq<nat>)
    requires forall i :: 0 <= i < |c| ==> c[i] == Empty
    ensures CacheOk(c, s.g, ranks, space, s.den)
  {
  }

  /** The table with nd linked in at address n but not referenced yet. */
  ghost function Joined(s: Table, n: nat, nd: Node): Table {
    Table(s.g[n := nd], s.refs[n := 0], AddDen(s.den, n, nd), s.ext)
  }

  lemma JoinedOk(s: Table, ranks: seq<nat>, n: nat, nd: Node)
    requires TableOk(s, ranks) && Joins(s.g, ranks, n, nd)
    ensures TableOk(Joined(s, n, nd), ranks) && Kept(s, Joined(s, n, nd))
  {
    var t := Joined(s, n, nd);
    AddNodeShape(s.g, ranks, n, nd);
    AddNodeDenotes(s.g, ranks, s.den, n, nd);
    assert Live(t.g, t.refs) == Live(s.g, s.refs);
    RegraphOk(s.g, t.g, s.refs, t.refs, s.ext, multiset{}, Live(s.g, s.refs));
    assert Frozen(s.refs) <= Frozen(t.refs);
  }

  ghost function Revived(s: Table, n: nat): Table
    requires n in s.g
  {
    var t := Bumped(Bumped(s, s.g[n].thn.node), s.g[n].els.node);
    t.(refs := t.refs[n := 1], ext := s.ext + multiset{n})
  }

  lemma RevivedOk(s: Table, ranks: seq<nat>, n: nat)
    requires TableOk(s, ranks) && n in s.g && Count(s.refs, n) == 0
    requires Alive(s.g, s.refs, s.g[n].thn) && Alive(s.g, s.refs, s.g[n].els)
    ensures TableOk(Revived(s, n), ranks) && Kept(s, Revived(s, n))
  {
    var nd := s.g[n];
    ChildRanks(s.g, ranks, n);
    CoreKeys(s, ranks);
    BumpOk(s, ranks, nd.thn);
    var s1 := Bumped(s, nd.thn.node);
    BumpOk(s1, ranks, nd.els);
    var s2 := Bumped(s1, nd.els.node);
    HoldKids(s.ext, nd);
    ReviveOk(s2, ranks, n, s.ext);
    KeptTrans(s, s1, s2);
    RevivedFrozen(s2.refs, n);
  }

  lemma HoldKids(ext: multiset<nat>, nd: Node)
    ensures ext + multiset{nd.thn.node} + multiset{nd.els.node} == ext + Kids(nd)
  {
  }

  lemma RevivedFrozen(refs: Refs, n: nat)
    ensures Count(refs, n) == 0 ==> Frozen(refs) <= Frozen(refs[n := 1])
  {
  }

  lemma FreshAddress(g: Nodes)
    ensures exists n: nat :: n !in g && n != 0
  {
    var n := MaxKey(g.Keys);
    assert n + 1 !in g;
  }

  ghost function MaxKey(s: set<nat>): (r: nat)
    ensures forall n :: n in s ==> n <= r
  {
    if s == {} then 0
    else
      var x :| x in s;
      var r := MaxKey(s - {x});
      assert forall n :: n in s ==> n == x || n in s - {x};
      if r < x then x else r
  }

  lemma NotInValues(g: Nodes, nd: Node)
    requires forall n :: n in g ==> g[n] != nd
    ensures nd !in g.Values
  {
  }

  /** BDD_INCR_REF on the children of a dead node and on the node itself. */
  method RefDead(m: Manager, n: nat)
    requires m.Valid() && n in m.nodes && Count(m.refs, n) == 0
    requires Alive(m.nodes, m.refs, m.nodes[n].thn) && Alive(m.nodes, m.refs, m.nodes[n].els)
    modifies m`refs, m`ext
    ensures m.Valid() && Kept(old(m.Tab()), m.Tab()) && m.ext == old(m.ext) + multiset{n}
  {
    hide TableOk, Inverse, CacheOk, Kept;
    var nd := m.nodes[n];
    ghost var s := m.Tab();
    RevivedOk(s, m.ranks, n);
    m.refs := m.refs[nd.thn.node := Incr(Count(m.refs, nd.thn.node))];
    m.refs := m.refs[nd.els.node := Incr(Count(m.refs, nd.els.node))];
    RevivedRefs(s, m.ranks, n);
    m.refs := m.refs[n := Incr(Count(m.refs, n))];
    m.ext := m.ext + multiset{n};
  }

  lemma RevivedRefs(s: Table, ranks: seq<nat>, n: nat)
    requires TableOk(s, ranks) && n in s.g && Count(s.refs, n) == 0
    ensures var nd := s.g[n];
      var r1 := s.refs[nd.thn.node := Incr(Count(s.refs, nd.thn.node))];
      var r2 := r1[nd.els.node := Incr(Count(r1, nd.els.node))];
      Revived(s, n).refs == r2[n := Incr(Count(r2, n))]
  {
    ChildRanks(s.g, ranks, n);
  }

  /** Link a new node, dead as yet, into the unique table at an address that is not in use. */
  method Link(m: Manager, nd: Node) returns (n: nat)
    requires m.Valid() && nd !in m.nodes.Values && nd.varid < |m.ranks|
    requires nd.thn != nd.els && !nd.thn.neg && In(m.nodes, nd.thn) && In(m.nodes, nd.els)
    requires m.ranks[nd.varid] < Rank(m.nodes, m.ranks, nd.thn)
    requires m.ranks[nd.varid] < Rank(m.nodes, m.ranks, nd.els)
    modifies m`nodes, m`refs, m`den
    ensures m.Valid() && Kept(old(m.Tab()), m.Tab())
    ensures n !in old(m.nodes) && n != 0 && m.Tab() == Joined(old(m.Tab()), n, nd)
  {
    hide TableOk, Inverse, CacheOk, Kept;
    FreshAddress(m.nodes);
    n :| n !in m.nodes && n != 0;
    JoinedOk(m.Tab(), m.ranks, n, nd);
    JoinedCache(m.cache, m.Tab(), m.ranks, m.space, n, nd);
    m.nodes := m.nodes[n := nd];
    m.refs := m.refs[n := 0];
    m.den := AddDen(m.den, n, nd);
  }

  /** The lookup and the allocation of bdd_create_node, for a positive THEN edge. */
  method FindOrAdd(m: Manager, v: nat, T: Edge, E: Edge) returns (n: nat)
    requires m.Valid() && v < |m.ranks| && T != E && !T.neg
    requires Alive(m.nodes, m.refs, T) && Alive(m.nodes, m.refs, E)
    requires m.ranks[v] < Rank(m.nodes, m.ranks, T) && m.ranks[v] < Rank(m.nodes, m.ranks, E)
    modifies m`nodes, m`refs, m`den, m`ext
    ensures m.Valid() && Kept(old(m.Tab()), m.Tab()) && m.ext == old(m.ext) + multiset{n}
    ensures n in m.nodes && m.nodes[n] == Node(v, T, E)
  {
    hide TableOk, Inverse, CacheOk, Kept;
    var nd := Node(v, T, E);
    ghost var s := m.Tab();
    CoreKeys(s, m.ranks);
    if k :| k in m.nodes && m.nodes[k] == nd {
      n := k;
      if Count(m.refs, n) == 0 {
        RefDead(m, n);
      } else {
        AddRef(m, Edge(n, false));
      }
    } else {
      NotInValues(m.nodes, nd);
      n := Link(m, nd);
      ghost var t := m.Tab();
      JoinedAlive(s, n, nd);
      RefDead(m, n);
      KeptTrans(s, t, m.Tab());
    }
  }

  lemma JoinedAlive(s: Table, n: nat, nd: Node)
    requires n !in s.g && n != 0 && Alive(s.g, s.refs, nd.thn) && Alive(s.g, s.refs, nd.els)
    ensures Alive(s.g[n := nd], s.refs[n := 0], nd.thn) && Alive(s.g[n := nd], s.refs[n := 0], nd.els)
  {
  }

  lemma JoinedCache(c: seq<Entry>, s: Table, ranks: seq<nat>, space: seq<nat>, n: nat, nd: Node)
    requires TableOk(s, ranks) && Joins(s.g, ranks, n, nd) && CacheOk(c, s.g, ranks, space, s.den)
    ensures CacheOk(c, Joined(s, n, nd).g, ranks, space, Joined(s, n, nd).den)
  {
    var t := Joined(s, n, nd);
    forall i | 0 <= i < |c|
      ensures Named(c[i], t.g)
    {
      assert Named(c[i], s.g);
    }
    CacheFrame(c, s.g, s.den, t.g, t.den, ranks, space);
  }

  /** What every node-creating operation promises of its result: it is in the table, held once
      more than before, and denotes f; everything alive before is untouched. */
  ghost predicate Delivers(s: Table, t: Table, R: Edge, f: Fn) {
    && Kept(s, t)
    && t.ext == s.ext + multiset{R.node}
    && In(t.g, R)
    && Sem(t.den, R) == f
  }

  /** The function of a node, in terms of the functions its children had before. */
  lemma MadeNode(s: Table, t: Table, ranks: seq<nat>, n: nat)
    requires TableOk(s, ranks) && TableOk(t, ranks) && Kept(s, t) && n in t.g
    requires Alive(s.g, s.refs, t.g[n].thn) && Alive(s.g, s.refs, t.g[n].els)
    ensures Sem(t.den, Edge(n, false))
         == Shannon(t.g[n].varid, Sem(s.den, t.g[n].thn), Sem(s.den, t.g[n].els))
    ensures Rank(t.g, ranks, Edge(n, false)) == Rank(t.g, ranks, Edge(n, true)) == VarRank(ranks, t.g[n].varid)
  {
    assert NodeDenotes(t.g, t.den, n);
    assert NodeOk(t.g, ranks, n);
    KeptEdge(s, t, ranks, t.g[n].thn);
    KeptEdge(s, t, ranks, t.g[n].els);
  }

  lemma AliveCompl(s: Table, e: Edge)
    ensures Alive(s.g, s.refs, e) <==> Alive(s.g, s.refs, Compl(e))
    ensures Alive(s.g, s.refs, e) <==> Alive(s.g, s.refs, Regular(e))
  {
  }

  /** The garbage collection and the cache extension that bdd_create_node may trigger. */
  method Housekeep(m: Manager)
    requires m.Valid()
    modifies m
    ensures m.Valid() && m.ext == old(m.ext) && Kept(old(m.Tab()), m.Tab())
    ensures m.SameOrder(old(m.ranks), old(m.space), old(m.groups)) && m.reorder == old(m.reorder)
  {
    hide TableOk, Inverse, CacheOk, Kept;
    CoreKeys(m.Tab(), m.ranks);
    KeptRefl(m.Tab());
    if * {
      Gc(m);
    }
    if * {
      ExtendCache(m);
    }
  }

  /** bdd_create_node: the unique node for variable v with the given children. */
  method CreateNode(m: Manager, v: nat, T: Edge, E: Edge) returns (R: Edge)
    requires m.Valid() && v < |m.ranks|
    requires Alive(m.nodes, m.refs, T) && Alive(m.nodes, m.refs, E)
    requires m.ranks[v] < Rank(m.nodes, m.ranks, T) && m.ranks[v] < Rank(m.nodes, m.ranks, E)
    modifies m
    ensures m.Valid() && m.SameOrder(old(m.ranks), old(m.space), old(m.groups)) && m.reorder == old(m.reorder)
    ensures Delivers(old(m.Tab()), m.Tab(), R, Shannon(v, Sem(old(m.den), T), Sem(old(m.den), E)))
    ensures Rank(m.nodes, m.ranks, R) >= m.ranks[v]
  {
    hide TableOk, Inverse, CacheOk, Kept;
    ghost var s := m.Tab();
    if T == E {
      ShannonSame(v, Sem(m.den, T));
      AddRef(m, T);
      KeptEdge(s, m.Tab(), m.ranks, T);
      AliveIn(m.nodes, m.refs, T);
      return T;
    }
    var T', E' := NegIf(T, T.neg), NegIf(E, T.neg);
    AliveCompl(s, T);
    AliveCompl(s, E);
    ComplRank(m.nodes, m.ranks, T);
    ComplRank(m.nodes, m.ranks, E);
    var n := FindOrAdd(m, v, T', E');
    MadeNode(s, m.Tab(), m.ranks, n);
    R := Edge(n, T.neg);
    NegShannon(s.den, v, T, E);
    ghost var t := m.Tab();
    HeldAlive(t, m.ranks, n);
    Housekeep(m);
    KeptTrans(s, t, m.Tab());
    KeptEdge(t, m.Tab(), m.ranks, R);
    AliveIn(m.nodes, m.refs, R);
  }

  lemma ComplRank(g: Nodes, ranks: seq<nat>, e: Edge)
    ensures Rank(g, ranks, Compl(e)) == Rank(g, ranks, e)
  {
  }

  lemma NegShannon(den: Den, v: nat, T: Edge, E: Edge)
    ensures var f := Shannon(v, Sem(den, NegIf(T, T.neg)), Sem(den, NegIf(E, T.neg)));
      Shannon(v, Sem(den, T), Sem(den, E)) == if T.neg then Not(f) else f
  {
    if T.neg {
      SemCompl(den, Compl(T));
      SemCompl(den, Compl(E));
      assert Compl(Compl(T)) == T && Compl(Compl(E)) == E;
      NotShannon(v, Sem(den, Compl(T)), Sem(den, Compl(E)));
    }
  }

  /** Freeing leaves alone everything that the remaining references hold. */
  lemma KeptAfterFree(s: Table, t: Table, u: Table, ranks: seq<nat>)
    requires TableOk(s, ranks) && TableOk(u, ranks) && Kept(s, t)
    requires u.g == t.g && u.den == t.den && FrozenKept(t.refs, u.refs) && s.ext <= u.ext
    ensures Kept(s, u)
  {
    forall n: nat | Count(s.refs, n) > 0
      ensures Count(u.refs, n) > 0
    {
      forall k | k in Live(s.g, s.refs)
        ensures k in u.g && u.g[k] == s.g[k]
      {
        assert Count(s.refs, k) > 0;
      }
      StaysAlive(s.g, s.refs, s.ext, u.g, u.refs, u.ext, ranks, n);
    }
  }
}
