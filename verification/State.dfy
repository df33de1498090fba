/** The package's global state and what it means for it to be consistent. */
module State {
  import opened Functions
  import opened Graph
  import opened RefCount
  import opened Nearest
  import opened Simplify

  /** What a computed-table entry is a result of: an ite with first argument f, or one of the
      two functions that share the table. */
  datatype Op = OpIte(f: Edge) | OpConstrain | OpRestrict

  datatype Entry = Empty | Entry(op: Op, g: Edge, h: Edge, r: Edge)

  function Min3(a: nat, b: nat, c: nat): nat {
    Min(a, Min(b, c))
  }

  /** All nodes an entry names are in the table. */
  ghost predicate Named(e: Entry, g: Nodes) {
    e.Entry? ==> In(g, e.g) && In(g, e.h) && In(g, e.r) && (e.op.OpIte? ==> In(g, e.op.f))
  }

  /** An entry's result is right and does not rank above its arguments. */
  ghost predicate Right(e: Entry, g: Nodes, ranks: seq<nat>, space: seq<nat>, den: Den) {
    match e
    case Empty => true
    case Entry(OpIte(f), gg, h, r) =>
      && Sem(den, r) == Ite(Sem(den, f), Sem(den, gg), Sem(den, h))
      && Rank(g, ranks, r) >= Min3(Rank(g, ranks, f), Rank(g, ranks, gg), Rank(g, ranks, h))
    case Entry(OpConstrain, f, c, r) =>
      && c != ZERO
      && Sem(den, r) == Constrain(space, Sem(den, f), Sem(den, c))
      && Rank(g, ranks, r) >= Min(Rank(g, ranks, f), Rank(g, ranks, c))
    case Entry(OpRestrict, f, c, r) =>
      && c != ZERO
      && Sem(den, r) == Restrict(space, Sem(den, f), Sem(den, c))
      && Rank(g, ranks, r) >= Rank(g, ranks, f)
  }

  ghost predicate CacheOk(cache: seq<Entry>, g: Nodes, ranks: seq<nat>, space: seq<nat>, den: Den) {
    forall i {:trigger cache[i]} :: 0 <= i < |cache| ==>
      Named(cache[i], g) && Right(cache[i], g, ranks, space, den)
  }

  /** space lists the variables by rank: the inverse of ranks. */
  ghost predicate Inverse(ranks: seq<nat>, space: seq<nat>) {
    && |space| == |ranks|
    && (forall r {:trigger space[r]} :: 0 <= r < |space| ==> space[r] < |ranks| && ranks[space[r]] == r)
    && (forall v {:trigger ranks[v]} :: 0 <= v < |ranks| ==> ranks[v] < |space| && space[ranks[v]] == v)
  }

  predicate Alive(g: Nodes, refs: Refs, e: Edge) {
    e.node == 0 || (e.node in g && Count(refs, e.node) > 0)
  }

  /** The node table, seen as a value. */
  datatype Table = Table(g: Nodes, refs: Refs, den: Den, ext: multiset<nat>)

  /** Every live node survives with its structure and its function, and stays alive. */
  ghost predicate Kept(s: Table, t: Table) {
    && FrozenKept(s.refs, t.refs)
    && (forall n {:trigger Count(s.refs, n)} {:trigger Count(t.refs, n)} ::
          Count(s.refs, n) > 0 ==> Count(t.refs, n) > 0)
    && (forall n {:trigger Count(s.refs, n)} ::
          n in s.g && Count(s.refs, n) > 0 ==>
            n in t.g && t.g[n] == s.g[n] && n in s.den && n in t.den && t.den[n] == s.den[n])
  }

  ghost predicate TableOk(s: Table, ranks: seq<nat>) {
    && WF(s.g, ranks, s.den)
    && s.refs.Keys == s.g.Keys + {0}
    && RefsOk(s.g, s.refs, s.ext, multiset{}, Live(s.g, s.refs))
  }

  /** A group of variables on consecutive ranks, ending with rank last. */
  datatype Group = Group(last: nat, orderable: bool)

  class Manager {
    var nodes: map<nat, Node>      // the unique table: address -> variable and children
    var refs: map<nat, nat>        // saturating reference counts, the terminal's included
    var ranks: seq<nat>            // variable id -> rank
    var space: seq<nat>            // rank -> variable id
    var groups: seq<Group>         // the variable groups, in the order of their ranks
    var cache: seq<Entry>          // the computed table
    var sop: seq<Edge>             // references held by the sum-of-products cache
    var reorder: bool              // bdd_do_dynamic_ordering
    const hash: (Op, Edge, Edge) -> nat
    ghost var den: map<nat, Fn>    // the function of every node
    ghost var ext: multiset<nat>   // references held outside the table

    ghost function Tab(): Table
      reads this
    {
      Table(nodes, refs, den, ext)
    }

    /** Everything but the caches. */
    ghost predicate Core()
      reads this
    {
      && Inverse(ranks, space)
      && TableOk(Tab(), ranks)
      && |cache| > 0
    }

    ghost predicate Valid()
      reads this
    {
      && Core()
      && CacheOk(cache, nodes, ranks, space, den)
      && sop == []
    }

    ghost predicate SameOrder(ranks': seq<nat>, space': seq<nat>, groups': seq<Group>)
      reads this
    {
      ranks == ranks' && space == space' && groups == groups'
    }

    constructor (size: nat, hash: (Op, Edge, Edge) -> nat)
      requires size > 0
      ensures Valid() && nodes == map[] && ext == multiset{} && ranks == [] && space == [] && groups == [] && reorder
    {
      nodes, refs, ranks, space := map[], map[0 := 0], [], [];
      cache := seq(size, _ => Empty);
      sop, groups := [], [];
      reorder := true;
      this.hash := hash;
      den, ext := map[], multiset{};
    }
  }

  lemma AliveIn(g: Nodes, refs: Refs, e: Edge)
    requires Alive(g, refs, e)
    ensures In(g, e)
  {
  }

  lemma KeptRefl(s: Table)
    requires s.den.Keys == s.g.Keys
    ensures Kept(s, s)
  {
  }

  lemma KeptTrans(s: Table, t: Table, u: Table)
    requires Kept(s, t) && Kept(t, u)
    ensures Kept(s, u)
  {
    forall n | n in s.g && Count(s.refs, n) > 0
      ensures n in u.g && u.g[n] == s.g[n] && n in u.den && n in s.den && u.den[n] == s.den[n]
    {
      assert Count(t.refs, n) > 0;
    }
  }

  /** What Kept says about one edge that was alive. */
  lemma KeptEdge(s: Table, t: Table, ranks: seq<nat>, e: Edge)
    requires TableOk(s, ranks) && TableOk(t, ranks) && Kept(s, t) && Alive(s.g, s.refs, e)
    ensures Alive(t.g, t.refs, e)
    ensures Sem(t.den, e) == Sem(s.den, e)
    ensures Rank(t.g, ranks, e) == Rank(s.g, ranks, e)
    ensures CofPos(t.g, e) == CofPos(s.g, e) && CofNeg(t.g, e) == CofNeg(s.g, e)
  {
    assert Count(s.refs, e.node) > 0 ==> Count(t.refs, e.node) > 0;
    if e.node == 0 {
      assert 0 !in s.den && 0 !in t.den;
    }
  }

  /** A held reference keeps its node alive. */
  lemma HeldAlive(s: Table, ranks: seq<nat>, n: nat)
    requires TableOk(s, ranks) && s.ext[n] > 0
    ensures Alive(s.g, s.refs, Edge(n, false)) && Alive(s.g, s.refs, Edge(n, true))
    ensures Count(s.refs, n) > 0
  {
    assert Balanced(s.g, s.refs, s.ext, multiset{}, Live(s.g, s.refs), n);
  }

  /** The children of a node rank higher than the node. */
  lemma ChildRanks(g: Nodes, ranks: seq<nat>, n: nat)
    requires Shape(g, ranks) && n in g
    ensures In(g, g[n].thn) && In(g, g[n].els)
    ensures Rank(g, ranks, Edge(n, false)) == Rank(g, ranks, Edge(n, true))
    ensures Rank(g, ranks, Edge(n, false)) < Rank(g, ranks, g[n].thn) <= TERMID
    ensures Rank(g, ranks, Edge(n, false)) < Rank(g, ranks, g[n].els) <= TERMID
  {
    assert NodeOk(g, ranks, n);
    RankBound(g, ranks, g[n].thn);
    RankBound(g, ranks, g[n].els);
  }

  lemma EdgeChildRanks(s: Table, ranks: seq<nat>, e: Edge)
    requires TableOk(s, ranks) && e.node in s.g
    ensures Rank(s.g, ranks, e) < Rank(s.g, ranks, s.g[e.node].thn) <= TERMID
    ensures Rank(s.g, ranks, e) < Rank(s.g, ranks, s.g[e.node].els) <= TERMID
    ensures In(s.g, s.g[e.node].thn) && In(s.g, s.g[e.node].els)
  {
    ChildRanks(s.g, ranks, e.node);
  }

  lemma CofactorsAlive(s: Table, ranks: seq<nat>, e: Edge)
    requires TableOk(s, ranks) && Alive(s.g, s.refs, e)
    ensures Alive(s.g, s.refs, CofPos(s.g, e)) && Alive(s.g, s.refs, CofNeg(s.g, e))
  {
    if e.node in s.g {
      assert NodeOk(s.g, ranks, e.node);
      ChildCounted(s.g, s.refs, s.ext, Live(s.g, s.refs), e.node);
    }
  }

  /** nd can join the table at the free address n. */
  ghost predicate Joins(g: Nodes, ranks: seq<nat>, n: nat, nd: Node) {
    && n !in g && n != 0
    && nd.varid < |ranks| && In(g, nd.thn) && In(g, nd.els)
    && ranks[nd.varid] < Rank(g, ranks, nd.thn) && ranks[nd.varid] < Rank(g, ranks, nd.els)
    && nd.thn != nd.els && !nd.thn.neg
    && nd !in g.Values
  }

  lemma AddNodeShape(g: Nodes, ranks: seq<nat>, n: nat, nd: Node)
    requires Shape(g, ranks) && Joins(g, ranks, n, nd)
    ensures Shape(g[n := nd], ranks)
  {
    var g' := g[n := nd];
    forall k | k in g'
      ensures NodeOk(g', ranks, k)
    {
      if k != n {
        assert NodeOk(g, ranks, k);
      }
    }
    forall k, l | Twins(g', k, l)
      ensures k == l
    {
      assert (k in g ==> g[k] in g.Values) && (l in g ==> g[l] in g.Values);
      if k != n && l != n {
        assert Twins(g, k, l);
      }
    }
  }

  ghost function AddDen(den: Den, n: nat, nd: Node): Den {
    den[n := Shannon(nd.varid, Sem(den, nd.thn), Sem(den, nd.els))]
  }

  lemma AddNodeDenotes(g: Nodes, ranks: seq<nat>, den: Den, n: nat, nd: Node)
    requires WF(g, ranks, den) && Joins(g, ranks, n, nd)
    ensures Denotes(g[n := nd], AddDen(den, n, nd))
  {
    var g', den' := g[n := nd], AddDen(den, n, nd);
    forall k | k in g'
      ensures NodeDenotes(g', den', k)
    {
      if k != n {
        assert NodeOk(g, ranks, k) && NodeDenotes(g, den, k);
        FrameEdge(g, den, g', den', ranks, g[k].thn);
        FrameEdge(g, den, g', den', ranks, g[k].els);
      } else {
        FrameEdge(g, den, g', den', ranks, nd.thn);
        FrameEdge(g, den, g', den', ranks, nd.els);
      }
    }
  }

  /** A table entry stays right when the nodes it names keep their function and rank. */
  lemma CacheFrame(cache: seq<Entry>, g: Nodes, den: Den, g': Nodes, den': Den, ranks: seq<nat>,
                   space: seq<nat>)
    requires CacheOk(cache, g, ranks, space, den)
    requires den.Keys == g.Keys && den'.Keys == g'.Keys && 0 !in g && 0 !in g'
    requires forall i {:trigger cache[i]} :: 0 <= i < |cache| ==> Named(cache[i], g')
    requires forall n {:trigger n in g} {:trigger n in g'} :: n in g && n in g' ==> g'[n] == g[n] && den'[n] == den[n]
    ensures CacheOk(cache, g', ranks, space, den')
  {
    forall i | 0 <= i < |cache|
      ensures Named(cache[i], g') && Right(cache[i], g', ranks, space, den')
    {
      var e := cache[i];
      assert Named(e, g) && Right(e, g, ranks, space, den);
      if e.Entry? {
        FrameEdge(g, den, g', den', ranks, e.g);
        FrameEdge(g, den, g', den', ranks, e.h);
        FrameEdge(g, den, g', den', ranks, e.r);
        if e.op.OpIte? {
          FrameEdge(g, den, g', den', ranks, e.op.f);
        }
      }
    }
  }

  lemma FrameEdge(g: Nodes, den: Den, g': Nodes, den': Den, ranks: seq<nat>, e: Edge)
    requires den.Keys == g.Keys && den'.Keys == g'.Keys && 0 !in g && 0 !in g'
    requires In(g, e) && In(g', e)
    requires e.node in g ==> g'[e.node] == g[e.node] && den'[e.node] == den[e.node]
    ensures Sem(den', e) == Sem(den, e) && Rank(g', ranks, e) == Rank(g, ranks, e)
  {
  }
}
