/** Quantification with one memo slot per node for each quantifier. */
module Quantify {
  import opened Functions
  import opened Graph
  import opened State
  import opened Tables
  import opened IteOps
  import opened ConstrainOps
  import opened Exists
  import opened Slots
  import opened FreeSlots

  /** The variable a list element stands for; a negative literal counts as its variable. */
  function Id(v: int): nat {
    if v < 0 then -v else v
  }

  /** A list of variables of the order, by rank. */
  ghost predicate Listed(vars: seq<int>, ranks: seq<nat>) {
    && (forall i {:trigger vars[i]} :: 0 <= i < |vars| ==> Id(vars[i]) < |ranks|)
    && (forall i, j :: 0 <= i <= j < |vars| ==> ranks[Id(vars[i])] <= ranks[Id(vars[j])])
  }

  function VarSet(vars: seq<int>): set<nat> {
    set i {:trigger vars[i]} | 0 <= i < |vars| :: Id(vars[i])
  }

  /** The variables of the list that are gone from its suffix rank above r. */
  ghost predicate Passed(vars: seq<int>, ranks: seq<nat>, i: nat, r: nat) {
    && i <= |vars| && Listed(vars, ranks)
    && (forall k {:trigger vars[k]} :: 0 <= k < i ==> ranks[Id(vars[k])] < r || Id(vars[k]) in VarSet(vars[i..]))
  }

  /** The loop at restart: skip duplicates, and variables above the top of f. */
  method NextVar(vars: seq<int>, ranks: seq<nat>, i: nat, topF: nat) returns (j: nat)
    requires Passed(vars, ranks, i, topF)
    ensures i <= j <= |vars| && Passed(vars, ranks, j, topF)
    ensures j < |vars| ==> topF <= ranks[Id(vars[j])]
    ensures j + 1 < |vars| ==> Id(vars[j + 1]) != Id(vars[j])
  {
    j := i;
    while j < |vars|
      invariant i <= j <= |vars| && Passed(vars, ranks, j, topF)
    {
      var x := Id(vars[j]);
      while j + 1 < |vars| && Id(vars[j + 1]) == x
        invariant j < |vars| && Id(vars[j]) == x && Passed(vars, ranks, j, topF)
      {
        PassDuplicate(vars, ranks, j, topF);
        j := j + 1;
      }
      if topF <= ranks[x] {
        return;
      }
      PassHigher(vars, ranks, j, topF);
      j := j + 1;
    }
  }

  lemma InSuffix(vars: seq<int>, i: nat, k: nat)
    requires i <= k < |vars|
    ensures Id(vars[k]) in VarSet(vars[i..])
  {
    assert vars[i..][k - i] == vars[k];
  }

  lemma SuffixStep(vars: seq<int>, i: nat, v: nat)
    requires i < |vars| && v in VarSet(vars[i..])
    ensures v == Id(vars[i]) || v in VarSet(vars[i + 1..])
  {
    var k :| 0 <= k < |vars[i..]| && Id(vars[i..][k]) == v;
    if k > 0 {
      InSuffix(vars, i + 1, i + k);
    }
  }

  lemma PassDuplicate(vars: seq<int>, ranks: seq<nat>, j: nat, r: nat)
    requires Passed(vars, ranks, j, r) && j + 1 < |vars| && Id(vars[j + 1]) == Id(vars[j])
    ensures Passed(vars, ranks, j + 1, r)
  {
    forall k | 0 <= k < j + 1
      ensures ranks[Id(vars[k])] < r || Id(vars[k]) in VarSet(vars[j + 1..])
    {
      InSuffix(vars, j + 1, j + 1);
      if k < j && ranks[Id(vars[k])] >= r {
        SuffixStep(vars, j, Id(vars[k]));
      }
    }
  }

  /** The variable on place j ranks above r. */
  lemma PassHigher(vars: seq<int>, ranks: seq<nat>, j: nat, r: nat)
    requires Passed(vars, ranks, j, r) && j < |vars| && ranks[Id(vars[j])] < r
    ensures Passed(vars, ranks, j + 1, r)
  {
    forall k | 0 <= k < j + 1
      ensures ranks[Id(vars[k])] < r || Id(vars[k]) in VarSet(vars[j + 1..])
    {
      assert ranks[Id(vars[k])] <= ranks[Id(vars[j])];
    }
  }

  lemma PassLower(vars: seq<int>, ranks: seq<nat>, j: nat, r: nat, r': nat)
    requires Passed(vars, ranks, j, r) && r <= r'
    ensures Passed(vars, ranks, j, r')
  {
  }

  /** The edge quantify_interpret_mod_bits returns for f. */
  function Slot(a: Aux, f: Edge, existential: bool): Edge
    requires f.node in a.aux1 && f.node in a.aux2
  {
    if existential then (if f.neg then Compl(a.aux2[f.node]) else a.aux1[f.node])
    else (if f.neg then Compl(a.aux1[f.node]) else a.aux2[f.node])
  }

  ghost function Quantified(existential: bool, f: Fn, x: set<nat>): Fn {
    if existential then Smooth(f, x) else Consensus(f, x)
  }

  lemma SlotOk(s: Table, ranks: seq<nat>, base: multiset<nat>, x: set<nat>, a: Aux, f: Edge, existential: bool)
    requires TableOk(s, ranks) && Memo(s, base, Quantifying(x), a) && f.node in a.aux1
    ensures f.node in a.aux2 && Alive(s.g, s.refs, Slot(a, f, existential))
    ensures Sem(s.den, Slot(a, f, existential)) == Quantified(existential, Sem(s.den, f), x)
    ensures Alive(s.g, s.refs, f)
  {
    hide Smooth, Consensus, TableOk;
    MemoSlotHeld(s, base, Quantifying(x), a, f.node);
    HeldAlive(s, ranks, a.aux1[f.node].node);
    HeldAlive(s, ranks, a.aux2[f.node].node);
    Dual(At(s.den, f.node), x);
    SemCompl(s.den, a.aux1[f.node]);
    SemCompl(s.den, a.aux2[f.node]);
  }

  /** How the results of the two children are put together. */
  datatype How = Or | And | Branch(v: Edge)

  function Put(how: How, R1: Edge, R2: Edge): Triple {
    match how
    case Or => Triple(R1, ONE, R2)
    case And => Triple(R1, R2, ZERO)
    case Branch(v) => Triple(v, R1, R2)
  }

  ghost function PutFn(den: Den, how: How, f1: Fn, f2: Fn): Fn {
    match how
    case Or => f1 + f2
    case And => f1 * f2
    case Branch(v) => Ite(Sem(den, v), f1, f2)
  }

  lemma PutOk(den: Den, how: How, R1: Edge, R2: Edge)
    requires 0 !in den
    ensures Meaning(den, Put(how, R1, R2)) == PutFn(den, how, Sem(den, R1), Sem(den, R2))
  {
    ConstSem(den);
  }

  /** Fetch the results of both children, put them together, and give them up. */
  method Merge(m: Manager, sc: Scratch, T: Edge, E: Edge, existential: bool, how: How,
               ghost base: multiset<nat>, ghost x: set<nat>)
    returns (R: Edge)
    requires m.Valid() && Memo(m.Tab(), base, Quantifying(x), sc.Val()) && T.node in sc.aux1 && E.node in sc.aux1
    requires how.Branch? ==> Alive(m.nodes, m.refs, how.v)
    modifies m
    ensures m.Valid() && m.SameOrder(old(m.ranks), old(m.space), old(m.groups)) && m.reorder == old(m.reorder)
    ensures Memo(m.Tab(), base + multiset{R.node}, Quantifying(x), sc.Val())
    ensures Delivers(old(m.Tab()), m.Tab(), R,
                     PutFn(old(m.den), how, Quantified(existential, old(Sem(m.den, T)), x), Quantified(existential, old(Sem(m.den, E)), x)))
  {
    hide TableOk, CacheOk, Inverse, Kept, Meaning, Memo, Quantified, PutFn;
    ghost var s, a := m.Tab(), sc.Val();
    MemoKeys(s, base, Quantifying(x), a);
    SlotOk(s, m.ranks, base, x, a, T, existential);
    SlotOk(s, m.ranks, base, x, a, E, existential);
    var R1, R2 := Slot(sc.Val(), T, existential), Slot(sc.Val(), E, existential);
    HoldTwo(m, R1, R2);
    ghost var s2 := m.Tab();
    PutAlive(s, s2, m.ranks, how, R1, R2);
    CoreKeys(s, m.ranks);
    PutOk(s.den, how, R1, R2);
    R := IteTwo(m, Put(how, R1, R2), R1, R2, s);
    MemoBase(s, m.Tab(), base, Quantifying(x), a, multiset{R.node});
    MemoKept(s, m.Tab(), m.ranks, base, base + multiset{R.node}, Quantifying(x), a);
  }

  method HoldTwo(m: Manager, R1: Edge, R2: Edge)
    requires m.Valid() && Alive(m.nodes, m.refs, R1) && Alive(m.nodes, m.refs, R2)
    modifies m`refs, m`ext
    ensures m.Valid() && Kept(old(m.Tab()), m.Tab())
    ensures m.ext == old(m.ext) + multiset{R1.node} + multiset{R2.node}
  {
    hide TableOk, CacheOk, Inverse, Kept;
    ghost var s := m.Tab();
    AddRef(m, R1);
    ghost var s1 := m.Tab();
    KeptEdge(s, s1, m.ranks, R1);
    KeptEdge(s, s1, m.ranks, R2);
    AddRef(m, R2);
    KeptTrans(s, s1, m.Tab());
  }

  lemma PutAlive(s: Table, t: Table, ranks: seq<nat>, how: How, R1: Edge, R2: Edge)
    requires TableOk(s, ranks) && TableOk(t, ranks) && Kept(s, t)
    requires Alive(s.g, s.refs, R1) && Alive(s.g, s.refs, R2) && (how.Branch? ==> Alive(s.g, s.refs, how.v))
    ensures AliveT(t, Put(how, R1, R2)) && Meaning(t.den, Put(how, R1, R2)) == Meaning(s.den, Put(how, R1, R2))
  {
    KeptTriple(s, t, ranks, Put(how, R1, R2));
  }

  /** A function that has none of the variables left to quantify stays as it is. */
  lemma NothingLeft(s: Table, ranks: seq<nat>, vars: seq<int>, f: Edge)
    requires TableOk(s, ranks) && In(s.g, f) && Listed(vars, ranks)
    requires f.node == 0 || Passed(vars, ranks, |vars|, Rank(s.g, ranks, f))
    ensures Smooth(At(s.den, f.node), VarSet(vars)) == At(s.den, f.node)
    ensures Consensus(At(s.den, f.node), VarSet(vars)) == At(s.den, f.node)
  {
    var F := At(s.den, f.node);
    CoreKeys(s, ranks);
    forall y | y in VarSet(vars)
      ensures Indep(F, y)
    {
      var k :| 0 <= k < |vars| && Id(vars[k]) == y;
      if f.node != 0 {
        SemIndep(s.g, ranks, s.den, Edge(f.node, false), y);
      }
    }
    SmoothSkip(F, VarSet(vars));
    ConsensusSkip(F, VarSet(vars));
  }

  /** Over a variable that stays, the results of the children are the branches. */
  ghost predicate StepKept(s: Table, n: nat, x: set<nat>, existential: bool)
    requires n in s.g
  {
    var nd := s.g[n];
    Quantified(existential, At(s.den, n), x)
    == Shannon(nd.varid, Quantified(existential, Sem(s.den, nd.thn), x), Quantified(existential, Sem(s.den, nd.els), x))
  }

  /** Over a quantified variable, they are joined or met. */
  ghost predicate StepGone(s: Table, n: nat, x: set<nat>, existential: bool)
    requires n in s.g
  {
    var nd := s.g[n];
    var t, e := Quantified(existential, Sem(s.den, nd.thn), x), Quantified(existential, Sem(s.den, nd.els), x);
    Quantified(existential, At(s.den, n), x) == if existential then t + e else t * e
  }

  /** The recursion of bdd_quantify_aux: whether the node's variable v is one of the quantified. */
  lemma QuantifyStep(s: Table, ranks: seq<nat>, n: nat, x: set<nat>, existential: bool)
    requires TableOk(s, ranks) && n in s.g
    ensures s.g[n].varid !in x ==> StepKept(s, n, x, existential)
    ensures s.g[n].varid in x ==> StepGone(s, n, x, existential)
  {
    var nd := s.g[n];
    var v, t, e := nd.varid, Sem(s.den, nd.thn), Sem(s.den, nd.els);
    assert NodeDenotes(s.g, s.den, n);
    CofactorsIndep(s.g, ranks, s.den, Edge(n, false));
    if v in x {
      SmoothGone(v, t, e, x);
      ConsensusGone(v, t, e, x);
    } else {
      SmoothKept(v, t, e, x);
      ConsensusKept(v, t, e, x);
    }
  }

  /** Whether the list's next variable is the node's own tells whether that is quantified. */
  lemma NextIsTop(vars: seq<int>, ranks: seq<nat>, space: seq<nat>, j: nat, v: nat)
    requires Inverse(ranks, space) && v < |ranks| && Passed(vars, ranks, j, ranks[v]) && j < |vars|
    requires ranks[v] <= ranks[Id(vars[j])]
    ensures v in VarSet(vars) <==> ranks[Id(vars[j])] == ranks[v]
  {
    var u := Id(vars[j]);
    assert space[ranks[v]] == v && space[ranks[u]] == u;
    InSuffix(vars, 0, j);
    assert vars[0..] == vars;
    if v in VarSet(vars) {
      var k :| 0 <= k < |vars| && Id(vars[k]) == v;
      if k < j {
        var l :| 0 <= l < |vars[j..]| && Id(vars[j..][l]) == v;
        assert vars[j..][l] == vars[j + l];
      }
    }
  }

  /** A node enters the memo with both its results. */
  method Finish(m: Manager, sc: Scratch, f: Edge, R1: Edge, R2: Edge, ghost base: multiset<nat>, ghost x: set<nat>)
    requires m.Valid() && Memo(m.Tab(), base + multiset{R1.node} + multiset{R2.node}, Quantifying(x), sc.Val())
    requires f.node !in sc.aux1 && f.node in sc.mark && Alive(m.nodes, m.refs, f)
    requires In(m.nodes, R1) && In(m.nodes, R2)
    requires Sem(m.den, R1) == Smooth(At(m.den, f.node), x) && Sem(m.den, R2) == Consensus(At(m.den, f.node), x)
    modifies sc`aux1, sc`aux2
    ensures Memo(m.Tab(), base, Quantifying(x), sc.Val())
    ensures sc.aux1.Keys == old(sc.aux1.Keys) + {f.node}
  {
    hide Memo, Smooth, Consensus, TableOk, CacheOk;
    MemoAdd(m.Tab(), base, x, sc.Val(), f.node, R1, R2);
    sc.aux1 := sc.aux1[f.node := R1];
    sc.aux2 := sc.aux2[f.node := R2];
  }

  /** No variable left, or a constant: the node stands for itself. */
  method Keep(m: Manager, sc: Scratch, f: Edge, ghost base: multiset<nat>, ghost x: set<nat>)
    requires m.Valid() && Memo(m.Tab(), base, Quantifying(x), sc.Val()) && Alive(m.nodes, m.refs, f)
    requires f.node !in sc.aux1 && f.node in sc.mark
    requires Smooth(At(m.den, f.node), x) == At(m.den, f.node) == Consensus(At(m.den, f.node), x)
    modifies m, sc`aux1, sc`aux2
    ensures m.Valid() && m.SameOrder(old(m.ranks), old(m.space), old(m.groups)) && m.reorder == old(m.reorder)
    ensures Kept(old(m.Tab()), m.Tab()) && Memo(m.Tab(), base, Quantifying(x), sc.Val())
    ensures sc.aux1.Keys == old(sc.aux1.Keys) + {f.node}
  {
    hide Memo, Smooth, Consensus, TableOk, CacheOk, Kept, Inverse;
    ghost var s := m.Tab();
    var r := Regular(f);
    AliveCompl(s, f);
    AddRef(m, r);
    ghost var s1 := m.Tab();
    KeptEdge(s, s1, m.ranks, f);
    KeptEdge(s, s1, m.ranks, r);
    MemoBase(s, s1, base, Quantifying(x), sc.Val(), multiset{r.node});
    MemoKept(s, s1, m.ranks, base, base + multiset{r.node}, Quantifying(x), sc.Val());
    AddRef(m, r);
    KeptEdge(s1, m.Tab(), m.ranks, f);
    KeptEdge(s1, m.Tab(), m.ranks, r);
    MemoBase(s1, m.Tab(), base + multiset{r.node}, Quantifying(x), sc.Val(), multiset{r.node});
    MemoKept(s1, m.Tab(), m.ranks, base + multiset{r.node}, base + multiset{r.node} + multiset{r.node}, Quantifying(x), sc.Val());
    KeptTrans(s, s1, m.Tab());
    AliveIn(m.nodes, m.refs, r);
    Finish(m, sc, f, r, r, base, x);
  }

  /** Everything bdd_quantify_aux needs of the state for a node of rank r. */
  ghost predicate Prepared(m: Manager, sc: Scratch, vars: seq<int>, i: nat, r: nat, base: multiset<nat>)
    reads m, sc
  {
    && m.Valid() && Passed(vars, m.ranks, i, r)
    && Memo(m.Tab(), base, Quantifying(VarSet(vars)), sc.Val()) && Ready(m.Tab(), m.ranks, sc.Val(), r)
  }

  /** bdd_quantify_aux: both quantifications of f's node enter its slots. vars[i..] is what is left
      of the list; the memo does not depend on it. */
  method QuantifyAux(m: Manager, sc: Scratch, f: Edge, vars: seq<int>, i: nat, ghost base: multiset<nat>, ghost root: nat)
    requires Prepared(m, sc, vars, i, Rank(m.nodes, m.ranks, f), base)
    requires Alive(m.nodes, m.refs, f) && f.node !in sc.mark && Rooted(m.nodes, sc.mark + {f.node}, root)
    modifies m, sc
    ensures m.Valid() && m.SameOrder(old(m.ranks), old(m.space), old(m.groups)) && m.reorder == old(m.reorder)
    ensures Kept(old(m.Tab()), m.Tab()) && Memo(m.Tab(), base, Quantifying(VarSet(vars)), sc.Val())
    ensures Grew(old(sc.Val()), sc.Val()) && f.node in sc.aux1 && Rooted(m.nodes, sc.mark, root)
    decreases TERMID - Rank(m.nodes, m.ranks, f), 1
  {
    hide TableOk, CacheOk, Inverse, Kept, Memo, Passed, Ready, Smooth, Consensus, Grew, Rooted;
    ghost var s, a, x := m.Tab(), sc.Val(), VarSet(vars);
    MemoMarked(s, base, Quantifying(x), a);
    MemoMark(s, base, Quantifying(x), a, f.node);
    ReadyEnter(s, m.ranks, a, f);
    sc.mark := sc.mark + {f.node};
    ghost var a1 := sc.Val();
    GrewRefl(a1);
    AliveIn(m.nodes, m.refs, f);
    var topF := Rank(m.nodes, m.ranks, f);
    PassedList(vars, m.ranks, i, topF);
    if f.node == 0 {
      NothingLeft(s, m.ranks, vars, f);
      Keep(m, sc, f, base, x);
      GrewDone(a, a1, sc.Val(), f.node);
      RootedKept(s, m.Tab(), m.ranks, base, Quantifying(x), a1, topF + 1, root);
      return;
    }
    var j := NextVar(vars, m.ranks, i, topF);
    if j == |vars| {
      NothingLeft(s, m.ranks, vars, f);
      Keep(m, sc, f, base, x);
      GrewDone(a, a1, sc.Val(), f.node);
      RootedKept(s, m.Tab(), m.ranks, base, Quantifying(x), a1, topF + 1, root);
    } else {
      ghost var b := QuantifyNode(m, sc, f, vars, j, base, root);
      GrewDone(a, b, sc.Val(), f.node);
    }
  }

  lemma PassedList(vars: seq<int>, ranks: seq<nat>, i: nat, r: nat)
    requires Passed(vars, ranks, i, r)
    ensures Listed(vars, ranks)
  {
  }

  lemma NextPassed(vars: seq<int>, ranks: seq<nat>, j: nat, r: nat, r': nat)
    requires Passed(vars, ranks, j, r) && j < |vars| && r < r'
    ensures Id(vars[j]) < |ranks|
    ensures Passed(vars, ranks, if ranks[Id(vars[j])] == r then j + 1 else j, r')
  {
    PassLower(vars, ranks, j, r, r');
    if ranks[Id(vars[j])] == r {
      PassHigher(vars, ranks, j, r');
    }
  }

  /** One child: recurse unless it has been handled. */
  method QuantifyKid(m: Manager, sc: Scratch, f: Edge, kid: Edge, vars: seq<int>, next: nat, ghost base: multiset<nat>,
                     ghost root: nat)
    requires m.Valid() && Memo(m.Tab(), base, Quantifying(VarSet(vars)), sc.Val()) && Alive(m.nodes, m.refs, f)
    requires f.node in m.nodes && (kid == m.nodes[f.node].thn || kid == m.nodes[f.node].els)
    requires Passed(vars, m.ranks, next, Rank(m.nodes, m.ranks, kid))
    requires Ready(m.Tab(), m.ranks, sc.Val(), Rank(m.nodes, m.ranks, f) + 1)
    requires f.node in sc.mark && Rooted(m.nodes, sc.mark, root)
    modifies m, sc
    ensures m.Valid() && m.SameOrder(old(m.ranks), old(m.space), old(m.groups)) && m.reorder == old(m.reorder)
    ensures Kept(old(m.Tab()), m.Tab()) && Memo(m.Tab(), base, Quantifying(VarSet(vars)), sc.Val())
    ensures Grew(old(sc.Val()), sc.Val()) && kid.node in sc.aux1 && Rooted(m.nodes, sc.mark, root)
    ensures Ready(m.Tab(), m.ranks, sc.Val(), old(Rank(m.nodes, m.ranks, f)) + 1)
    decreases TERMID - Rank(m.nodes, m.ranks, f), 0, 0
  {
    hide TableOk, CacheOk, Inverse, Kept, Memo, Passed, Ready, Grew, Rooted;
    ghost var s, a, r := m.Tab(), sc.Val(), Rank(m.nodes, m.ranks, f) + 1;
    ReadyBelow(s, m.ranks, a, f, kid);
    if kid.node !in sc.mark {
      RootedChild(m.nodes, sc.mark, root, f.node, kid.node);
      QuantifyAux(m, sc, kid, vars, next, base, root);
    } else {
      CoreKeys(s, m.ranks);
      KeptRefl(s);
      GrewRefl(a);
    }
    ReadyKept(s, m.Tab(), m.ranks, a, sc.Val(), r);
  }

  /** Both children, then the node itself. */
  method QuantifyNode(m: Manager, sc: Scratch, f: Edge, vars: seq<int>, j: nat, ghost base: multiset<nat>, ghost root: nat)
    returns (ghost b: Aux)
    requires m.Valid() && Memo(m.Tab(), base, Quantifying(VarSet(vars)), sc.Val()) && Alive(m.nodes, m.refs, f)
    requires f.node in m.nodes && f.node in sc.mark && f.node !in sc.aux1
    requires j < |vars| && Passed(vars, m.ranks, j, Rank(m.nodes, m.ranks, f))
    requires Rank(m.nodes, m.ranks, f) <= VarRank(m.ranks, Id(vars[j]))
    requires Ready(m.Tab(), m.ranks, sc.Val(), Rank(m.nodes, m.ranks, f) + 1) && Rooted(m.nodes, sc.mark, root)
    modifies m, sc
    ensures m.Valid() && m.SameOrder(old(m.ranks), old(m.space), old(m.groups)) && m.reorder == old(m.reorder)
    ensures Kept(old(m.Tab()), m.Tab()) && Memo(m.Tab(), base, Quantifying(VarSet(vars)), sc.Val())
    ensures Grew(old(sc.Val()), b) && f.node !in b.aux1 && Rooted(m.nodes, sc.mark, root)
    ensures sc.mark == b.mark && sc.aux1.Keys == b.aux1.Keys + {f.node}
    decreases TERMID - Rank(m.nodes, m.ranks, f), 0, 1
  {
    hide TableOk, CacheOk, Inverse, Kept, Memo, Passed, Ready, Grew, Rooted;
    ghost var s, a, r := m.Tab(), sc.Val(), Rank(m.nodes, m.ranks, f) + 1;
    var nd := m.nodes[f.node];
    var v, T, E := nd.varid, nd.thn, nd.els;
    NodeRanks(s, m.ranks, f);
    var topF := m.ranks[v];
    NextPassed(vars, m.ranks, j, topF, Rank(m.nodes, m.ranks, T));
    NextPassed(vars, m.ranks, j, topF, Rank(m.nodes, m.ranks, E));
    var rank := m.ranks[Id(vars[j])];
    NextIsTop(vars, m.ranks, m.space, j, v);
    var next := if rank == topF then j + 1 else j;
    QuantifyKid(m, sc, f, T, vars, next, base, root);
    ghost var s1, a1 := m.Tab(), sc.Val();
    KeptNode(s, s1, m.ranks, f);
    GrewRefl(a);
    GrewKeeps(a, a, a1, f.node, f.node);
    QuantifyKid(m, sc, f, E, vars, next, base, root);
    b := sc.Val();
    GrewTrans(a, a1, b);
    GrewKeeps(a, a1, b, f.node, T.node);
    ghost var s2 := m.Tab();
    KeptNode(s1, s2, m.ranks, f);
    KeptTrans(s, s1, s2);
    if rank == topF {
      FinishJoin(m, sc, f, base, VarSet(vars));
    } else {
      FinishBranch(m, sc, f, base, VarSet(vars));
    }
    RootedKept(s2, m.Tab(), m.ranks, base, Quantifying(VarSet(vars)), b, r, root);
    KeptTrans(s, s2, m.Tab());
  }

  /** The node's own variable is quantified: or for one slot, and for the other. */
  method FinishJoin(m: Manager, sc: Scratch, f: Edge, ghost base: multiset<nat>, ghost x: set<nat>)
    requires m.Valid() && Memo(m.Tab(), base, Quantifying(x), sc.Val()) && Alive(m.nodes, m.refs, f)
    requires f.node in m.nodes && f.node in sc.mark && f.node !in sc.aux1 && m.nodes[f.node].varid in x
    requires m.nodes[f.node].thn.node in sc.aux1 && m.nodes[f.node].els.node in sc.aux1
    modifies m, sc`aux1, sc`aux2
    ensures m.Valid() && m.SameOrder(old(m.ranks), old(m.space), old(m.groups)) && m.reorder == old(m.reorder)
    ensures Kept(old(m.Tab()), m.Tab()) && Memo(m.Tab(), base, Quantifying(x), sc.Val())
    ensures sc.aux1.Keys == old(sc.aux1.Keys) + {f.node}
  {
    hide TableOk, CacheOk, Inverse, Kept, Memo, Smooth, Consensus;
    ghost var s := m.Tab();
    var nd := m.nodes[f.node];
    QuantifyStep(s, m.ranks, f.node, x, true);
    QuantifyStep(s, m.ranks, f.node, x, false);
    ChildAlive(s, m.ranks, f);
    var R1 := Merge(m, sc, nd.thn, nd.els, true, Or, base, x);
    ghost var s1 := m.Tab();
    KeptKids(s, s1, m.ranks, f);
    var R2 := Merge(m, sc, nd.thn, nd.els, false, And, base + multiset{R1.node}, x);
    ghost var s2 := m.Tab();
    KeptKids(s1, s2, m.ranks, f);
    HeldAlive(s1, m.ranks, R1.node);
    KeptEdge(s1, s2, m.ranks, R1);
    KeptTrans(s, s1, s2);
    Finish(m, sc, f, R1, R2, base, x);
  }

  /** Give up the literal that was needed for both branches. */
  method DropVar(m: Manager, sc: Scratch, v: Edge, R1: Edge, R2: Edge, ghost base: multiset<nat>, ghost x: set<nat>,
                 ghost s: Table)
    requires m.Valid() && TableOk(s, m.ranks) && Kept(s, m.Tab()) && Memo(s, base, Quantifying(x), sc.Val())
    requires Memo(m.Tab(), base + multiset{v.node} + multiset{R1.node} + multiset{R2.node}, Quantifying(x), sc.Val())
    modifies m`refs, m`ext
    ensures m.Valid() && Kept(s, m.Tab())
    ensures Memo(m.Tab(), base + multiset{R1.node} + multiset{R2.node}, Quantifying(x), sc.Val())
  {
    hide TableOk, CacheOk, Inverse, Kept, Held, NodeMemo;
    ghost var t, a := m.Tab(), sc.Val();
    ghost var h := Held(a.aux1) + Held(a.aux2);
    Associate(base + multiset{v.node} + multiset{R1.node} + multiset{R2.node}, Held(a.aux1), Held(a.aux2));
    DropMiddle(base, v.node, R1.node, R2.node, h);
    Associate(base + multiset{R1.node} + multiset{R2.node}, Held(a.aux1), Held(a.aux2));
    BaseGrows(base, multiset{R1.node}, multiset{R2.node}, Held(a.aux1), Held(a.aux2));
    Free(m, v);
    KeptAfterFree(s, t, m.Tab(), m.ranks);
    MemoKept(s, m.Tab(), m.ranks, base, base + multiset{R1.node} + multiset{R2.node}, Quantifying(x), a);
  }

  /** The node's own variable stays: a branch over it for both slots. */
  method FinishBranch(m: Manager, sc: Scratch, f: Edge, ghost base: multiset<nat>, ghost x: set<nat>)
    requires m.Valid() && Memo(m.Tab(), base, Quantifying(x), sc.Val()) && Alive(m.nodes, m.refs, f)
    requires f.node in m.nodes && f.node in sc.mark && f.node !in sc.aux1 && m.nodes[f.node].varid !in x
    requires m.nodes[f.node].thn.node in sc.aux1 && m.nodes[f.node].els.node in sc.aux1
    modifies m, sc`aux1, sc`aux2
    ensures m.Valid() && m.SameOrder(old(m.ranks), old(m.space), old(m.groups)) && m.reorder == old(m.reorder)
    ensures Kept(old(m.Tab()), m.Tab()) && Memo(m.Tab(), base, Quantifying(x), sc.Val())
    ensures sc.aux1.Keys == old(sc.aux1.Keys) + {f.node}
  {
    hide TableOk, CacheOk, Inverse, Kept, Memo, Smooth, Consensus;
    ghost var s, a := m.Tab(), sc.Val();
    var nd := m.nodes[f.node];
    QuantifyStep(s, m.ranks, f.node, x, true);
    QuantifyStep(s, m.ranks, f.node, x, false);
    NodeRanks(s, m.ranks, f);
    var v := CreateVar(m, nd.varid);
    ghost var s0 := m.Tab();
    KeptKids(s, s0, m.ranks, f);
    MemoBase(s, s0, base, Quantifying(x), a, multiset{v.node});
    MemoKept(s, s0, m.ranks, base, base + multiset{v.node}, Quantifying(x), a);
    HeldAlive(s0, m.ranks, v.node);
    var R1, R2 := MergeTwo(m, sc, f, v, base + multiset{v.node}, x);
    ghost var s2 := m.Tab();
    KeptTrans(s, s0, s2);
    KeptKids(s0, s2, m.ranks, f);
    DropVar(m, sc, v, R1, R2, base, x, s);
    KeptKids(s, m.Tab(), m.ranks, f);
    Finish(m, sc, f, R1, R2, base, x);
  }

  /** The two branches over the literal v of f's variable. */
  method MergeTwo(m: Manager, sc: Scratch, f: Edge, v: Edge, ghost base: multiset<nat>, ghost x: set<nat>)
    returns (R1: Edge, R2: Edge)
    requires m.Valid() && Memo(m.Tab(), base, Quantifying(x), sc.Val()) && Alive(m.nodes, m.refs, f) && Alive(m.nodes, m.refs, v)
    requires f.node in m.nodes && Sem(m.den, v) == Shannon(m.nodes[f.node].varid, True(), iset{})
    requires m.nodes[f.node].thn.node in sc.aux1 && m.nodes[f.node].els.node in sc.aux1
    modifies m
    ensures m.Valid() && m.SameOrder(old(m.ranks), old(m.space), old(m.groups)) && m.reorder == old(m.reorder)
    ensures Kept(old(m.Tab()), m.Tab())
    ensures Memo(m.Tab(), base + multiset{R1.node} + multiset{R2.node}, Quantifying(x), sc.Val())
    ensures In(m.nodes, R1) && In(m.nodes, R2)
    ensures var nd := old(m.nodes)[f.node];
      && Sem(m.den, R1) == Shannon(nd.varid, Smooth(old(Sem(m.den, nd.thn)), x), Smooth(old(Sem(m.den, nd.els)), x))
      && Sem(m.den, R2) == Shannon(nd.varid, Consensus(old(Sem(m.den, nd.thn)), x), Consensus(old(Sem(m.den, nd.els)), x))
  {
    hide TableOk, CacheOk, Inverse, Kept, Memo, Smooth, Consensus, Ite, Shannon;
    ghost var s := m.Tab();
    var nd := m.nodes[f.node];
    ghost var t, e := Sem(m.den, nd.thn), Sem(m.den, nd.els);
    LiteralIte(nd.varid, Smooth(t, x), Smooth(e, x));
    LiteralIte(nd.varid, Consensus(t, x), Consensus(e, x));
    R1 := Merge(m, sc, nd.thn, nd.els, true, Branch(v), base, x);
    ghost var s1 := m.Tab();
    KeptKids(s, s1, m.ranks, f);
    KeptEdge(s, s1, m.ranks, v);
    R2 := Merge(m, sc, nd.thn, nd.els, false, Branch(v), base + multiset{R1.node}, x);
    ghost var s2 := m.Tab();
    HeldAlive(s1, m.ranks, R1.node);
    KeptEdge(s1, s2, m.ranks, R1);
    AliveIn(s2.g, s2.refs, R1);
    KeptTrans(s, s1, s2);
  }

  /** bdd_quantify: f with the listed variables quantified; all slots are given back. The list is
      sorted by rank. */
  method BddQuantify(m: Manager, sc: Scratch, existential: bool, f: Pointer, vars: seq<int>) returns (R: Pointer)
    requires m.Valid() && AliveP(m, f) && Listed(vars, m.ranks) && sc.Val() == Aux({}, map[], map[])
    modifies m, sc
    ensures m.Valid() && m.SameOrder(old(m.ranks), old(m.space), old(m.groups)) && m.reorder == old(m.reorder)
    ensures sc.Val() == Aux({}, map[], map[])
    ensures R.Void? <==> f.Void?
    ensures R.Void? ==> m.Tab() == old(m.Tab())
    ensures R.To? ==>
      Delivers(old(m.Tab()), m.Tab(), R.e, Quantified(existential, old(Sem(m.den, f.e)), VarSet(vars)))
  {
    hide TableOk, CacheOk, Inverse, Kept, Quantified, Listed;
    if f.Void? {
      return Void;
    }
    ghost var s := m.Tab();
    AliveIn(m.nodes, m.refs, f.e);
    if vars == [] || f.e.node == 0 {
      QuantifyNone(s, m.ranks, vars, f.e, existential);
      AddRef(m, f.e);
      KeptEdge(s, m.Tab(), m.ranks, f.e);
      AliveIn(m.nodes, m.refs, f.e);
      return To(f.e);
    }
    var save := m.reorder;
    m.reorder := false;
    PassedNone(vars, m.ranks, Rank(m.nodes, m.ranks, f.e));
    var r := QuantifyAll(m, sc, existential, f.e, vars, 0);
    m.reorder := save;
    R := To(r);
  }

  lemma PassedNone(vars: seq<int>, ranks: seq<nat>, r: nat)
    requires Listed(vars, ranks)
    ensures Passed(vars, ranks, 0, r)
  {
  }

  lemma QuantifyNone(s: Table, ranks: seq<nat>, vars: seq<int>, f: Edge, existential: bool)
    requires TableOk(s, ranks) && In(s.g, f) && Listed(vars, ranks) && (vars == [] || f.node == 0)
    ensures Quantified(existential, Sem(s.den, f), VarSet(vars)) == Sem(s.den, f)
  {
    NothingLeft(s, ranks, vars, f);
    Dual(At(s.den, f.node), VarSet(vars));
  }

  /** The recursion, the result, and the giving back. */
  method QuantifyAll(m: Manager, sc: Scratch, existential: bool, f: Edge, vars: seq<int>, i: nat) returns (R: Edge)
    requires m.Valid() && Alive(m.nodes, m.refs, f) && Passed(vars, m.ranks, i, Rank(m.nodes, m.ranks, f))
    requires sc.Val() == Aux({}, map[], map[])
    modifies m, sc
    ensures m.Valid() && m.SameOrder(old(m.ranks), old(m.space), old(m.groups)) && m.reorder == old(m.reorder)
    ensures sc.Val() == Aux({}, map[], map[])
    ensures Delivers(old(m.Tab()), m.Tab(), R, Quantified(existential, old(Sem(m.den, f)), VarSet(vars)))
  {
    hide TableOk, CacheOk, Inverse, Kept, Memo, Ready, Rooted, Grew, Quantified, Covers, Passed;
    ghost var s, x := m.Tab(), VarSet(vars);
    EmptyMemo(s, m.ranks, Quantifying(x), Rank(m.nodes, m.ranks, f), f.node);
    QuantifyAux(m, sc, f, vars, i, s.ext, f.node);
    ghost var s1, a := m.Tab(), sc.Val();
    KeptEdge(s, s1, m.ranks, f);
    MemoKeys(s1, s.ext, Quantifying(x), a);
    SlotOk(s1, m.ranks, s.ext, x, a, f, existential);
    R := Slot(sc.Val(), f, existential);
    AddRef(m, R);
    ghost var s2 := m.Tab();
    KeptEdge(s1, s2, m.ranks, R);
    KeptEdge(s1, s2, m.ranks, f);
    AliveIn(m.nodes, m.refs, R);
    AliveIn(m.nodes, m.refs, f);
    KeptTrans(s, s1, s2);
    GrewClosed(Aux({}, map[], map[]), a);
    CoversMemo(s1, m.ranks, s.ext, Quantifying(x), a, multiset{R.node}, m.ext);
    MemoMarked(s1, s.ext, Quantifying(x), a);
    FreeAll(m, sc, f, s.ext + multiset{R.node}, s);
    KeptAfterFree(s, s2, m.Tab(), m.ranks);
  }
}
