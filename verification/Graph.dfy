/** The node graph with complemented edges: shape invariants, the function an edge denotes,
    and strong canonicity. */
module Graph {
  import opened Functions

  /** The rank of the terminal node; user variables have smaller ids and ranks. */
  const TERMID := 65535

  /** A pointer to a node together with its output inverter bit. Address 0 is the terminal. */
  datatype Edge = Edge(node: nat, neg: bool)

  const ONE := Edge(0, false)
  const ZERO := Edge(0, true)

  datatype Node = Node(varid: nat, thn: Edge, els: Edge)

  type Nodes = map<nat, Node>
  type Den = map<nat, Fn>

  function Compl(e: Edge): Edge {
    e.(neg := !e.neg)
  }

  function NegIf(e: Edge, c: bool): Edge {
    if c then Compl(e) else e
  }

  function Regular(e: Edge): Edge {
    e.(neg := false)
  }

  predicate In(g: Nodes, e: Edge) {
    e.node == 0 || e.node in g
  }

  function Min(a: nat, b: nat): nat {
    if a < b then a else b
  }

  function VarRank(ranks: seq<nat>, v: nat): nat {
    if v < |ranks| then ranks[v] else TERMID
  }

  function Rank(g: Nodes, ranks: seq<nat>, e: Edge): nat {
    if e.node in g then VarRank(ranks, g[e.node].varid) else TERMID
  }

  /** Positive and negative cofactor of an edge with respect to the variable of its node. */
  function CofPos(g: Nodes, e: Edge): Edge {
    if e.node in g then NegIf(g[e.node].thn, e.neg) else e
  }

  function CofNeg(g: Nodes, e: Edge): Edge {
    if e.node in g then NegIf(g[e.node].els, e.neg) else e
  }

  ghost predicate OrderOk(ranks: seq<nat>) {
    && |ranks| <= TERMID
    && (forall v :: 0 <= v < |ranks| ==> ranks[v] < |ranks|)
    && (forall v, w :: 0 <= v < w < |ranks| ==> ranks[v] != ranks[w])
  }

  /** What a well-formed graph demands of one node: existing children of strictly higher rank,
      distinct from each other, and a THEN edge without the inverter bit. */
  ghost predicate NodeOk(g: Nodes, ranks: seq<nat>, n: nat)
    requires n in g
  {
    var nd := g[n];
    && nd.varid < |ranks|
    && In(g, nd.thn) && In(g, nd.els)
    && ranks[nd.varid] < Rank(g, ranks, nd.thn)
    && ranks[nd.varid] < Rank(g, ranks, nd.els)
    && nd.thn != nd.els
    && !nd.thn.neg
  }

  ghost predicate Twins(g: Nodes, n: nat, m: nat) {
    n in g && m in g && g[n] == g[m]
  }

  /** A well-formed graph: ordered, reduced, shared, with positive THEN edges. */
  ghost predicate Shape(g: Nodes, ranks: seq<nat>) {
    && OrderOk(ranks)
    && 0 !in g
    && (forall n {:trigger NodeOk(g, ranks, n)} :: n in g ==> NodeOk(g, ranks, n))
    && (forall n, m {:trigger Twins(g, n, m)} :: Twins(g, n, m) ==> n == m)
  }

  /** The value of an edge under an assignment: follow the node's variable, complementing
      at every negative edge. */
  ghost predicate Eval(g: Nodes, ranks: seq<nat>, e: Edge, a: Asg)
    requires Shape(g, ranks)
    decreases TERMID - Rank(g, ranks, e)
  {
    if e.node !in g then !e.neg
    else
      var n := g[e.node];
      RankBound(g, ranks, n.thn);
      RankBound(g, ranks, n.els);
      assert NodeOk(g, ranks, e.node);
      e.neg != if n.varid in a then Eval(g, ranks, n.thn, a) else Eval(g, ranks, n.els, a)
  }

  lemma RankBound(g: Nodes, ranks: seq<nat>, e: Edge)
    requires OrderOk(ranks)
    ensures Rank(g, ranks, e) <= TERMID
  {
  }

  lemma TerminalRank(g: Nodes, ranks: seq<nat>, e: Edge)
    requires Shape(g, ranks)
    ensures Rank(g, ranks, e) < TERMID <==> e.node in g
  {
    if e.node in g {
      assert NodeOk(g, ranks, e.node);
    }
  }

  /** What den assigns to a node; the terminal denotes the constant true. */
  ghost function At(den: Den, n: nat): Fn {
    if n in den then den[n] else True()
  }

  ghost function Sem(den: Den, e: Edge): Fn {
    if e.neg then Not(At(den, e.node)) else At(den, e.node)
  }

  ghost predicate NodeDenotes(g: Nodes, den: Den, n: nat)
    requires n in g && n in den
  {
    den[n] == Shannon(g[n].varid, Sem(den, g[n].thn), Sem(den, g[n].els))
  }

  /** den satisfies the defining equation of every node. */
  ghost predicate Denotes(g: Nodes, den: Den) {
    && den.Keys == g.Keys
    && (forall n {:trigger NodeDenotes(g, den, n)} :: n in g ==> NodeDenotes(g, den, n))
  }

  ghost predicate WF(g: Nodes, ranks: seq<nat>, den: Den) {
    Shape(g, ranks) && Denotes(g, den)
  }

  lemma SemCompl(den: Den, e: Edge)
    ensures Sem(den, Compl(e)) == Not(Sem(den, e))
  {
    NotNot(At(den, e.node));
  }

  /** The denotation kept beside the graph is evaluation. */
  lemma {:induction false} SemIsEval(g: Nodes, ranks: seq<nat>, den: Den, e: Edge, a: Asg)
    requires WF(g, ranks, den)
    ensures a in Sem(den, e) <==> Eval(g, ranks, e, a)
    decreases TERMID - Rank(g, ranks, e)
  {
    if e.node in g {
      var n := g[e.node];
      RankBound(g, ranks, n.thn);
      RankBound(g, ranks, n.els);
      assert NodeOk(g, ranks, e.node) && NodeDenotes(g, den, e.node);
      SemIsEval(g, ranks, den, n.thn, a);
      SemIsEval(g, ranks, den, n.els, a);
    }
  }

  /** Shannon expansion of an edge over the variable of its node. */
  lemma SemExpand(g: Nodes, den: Den, e: Edge)
    requires Denotes(g, den) && e.node in g
    ensures Sem(den, e) == Shannon(g[e.node].varid, Sem(den, CofPos(g, e)), Sem(den, CofNeg(g, e)))
  {
    var n := g[e.node];
    assert NodeDenotes(g, den, e.node);
    if e.neg {
      SemCompl(den, n.thn);
      SemCompl(den, n.els);
      NotShannon(n.varid, Sem(den, n.thn), Sem(den, n.els));
    }
  }

  /** An edge ignores every variable ranked above its node. */
  lemma {:induction false} SemIndep(g: Nodes, ranks: seq<nat>, den: Den, e: Edge, x: nat)
    requires WF(g, ranks, den)
    requires x < |ranks| && ranks[x] < Rank(g, ranks, e)
    ensures Indep(Sem(den, e), x)
    decreases TERMID - Rank(g, ranks, e)
  {
    if e.node in g {
      var n := g[e.node];
      RankBound(g, ranks, n.thn);
      RankBound(g, ranks, n.els);
      assert NodeOk(g, ranks, e.node) && NodeDenotes(g, den, e.node);
      SemIndep(g, ranks, den, n.thn, x);
      SemIndep(g, ranks, den, n.els, x);
      ShannonIndepOther(n.varid, Sem(den, n.thn), Sem(den, n.els), x);
    }
    IndepNot(At(den, e.node), x);
  }

  /** An edge is positive exactly when it is true where every variable is true. */
  lemma {:induction false} PositiveIffAllOnes(g: Nodes, ranks: seq<nat>, den: Den, e: Edge, a: Asg)
    requires WF(g, ranks, den)
    requires forall x :: 0 <= x < |ranks| ==> x in a
    ensures a in Sem(den, e) <==> !e.neg
    decreases TERMID - Rank(g, ranks, e)
  {
    if e.node in g {
      var n := g[e.node];
      RankBound(g, ranks, n.thn);
      assert NodeOk(g, ranks, e.node) && NodeDenotes(g, den, e.node);
      PositiveIffAllOnes(g, ranks, den, n.thn, a);
    }
  }

  function AllOnes(ranks: seq<nat>): Asg {
    set x: nat {:trigger x in ranks} | x < |ranks|
  }

  /** Strong canonicity: two edges denote the same function exactly when they are the same
      pointer. */
  lemma {:induction false} Canonical(g: Nodes, ranks: seq<nat>, den: Den, e1: Edge, e2: Edge)
    requires WF(g, ranks, den) && In(g, e1) && In(g, e2)
    ensures Sem(den, e1) == Sem(den, e2) <==> e1 == e2
    decreases TERMID - Min(Rank(g, ranks, e1), Rank(g, ranks, e2)), 1
  {
    if Sem(den, e1) == Sem(den, e2) {
      PositiveIffAllOnes(g, ranks, den, e1, AllOnes(ranks));
      PositiveIffAllOnes(g, ranks, den, e2, AllOnes(ranks));
      var r1, r2 := Rank(g, ranks, e1), Rank(g, ranks, e2);
      RankBound(g, ranks, e1);
      RankBound(g, ranks, e2);
      if r1 < r2 {
        TopVariableMatters(g, ranks, den, e1);
        SemIndep(g, ranks, den, e2, g[e1.node].varid);
      } else if r2 < r1 {
        TopVariableMatters(g, ranks, den, e2);
        SemIndep(g, ranks, den, e1, g[e2.node].varid);
      } else if r1 < TERMID {
        CanonicalSameRank(g, ranks, den, e1, e2);
      } else {
        TerminalRank(g, ranks, e1);
        TerminalRank(g, ranks, e2);
      }
    }
  }

  lemma {:induction false} CanonicalSameRank(g: Nodes, ranks: seq<nat>, den: Den, e1: Edge, e2: Edge)
    requires WF(g, ranks, den) && e1.node in g && e2.node in g && e1.neg == e2.neg
    requires Rank(g, ranks, e1) == Rank(g, ranks, e2)
    requires Sem(den, e1) == Sem(den, e2)
    ensures e1 == e2
    decreases TERMID - Rank(g, ranks, e1), 0
  {
    var n1, n2 := g[e1.node], g[e2.node];
    assert NodeOk(g, ranks, e1.node) && NodeOk(g, ranks, e2.node);
    SemExpand(g, den, e1);
    SemExpand(g, den, e2);
    CofactorsIndep(g, ranks, den, e1);
    CofactorsIndep(g, ranks, den, e2);
    CofactorRanks(g, ranks, e1);
    CofactorRanks(g, ranks, e2);
    ShannonInjective(n1.varid, Sem(den, CofPos(g, e1)), Sem(den, CofNeg(g, e1)),
                     Sem(den, CofPos(g, e2)), Sem(den, CofNeg(g, e2)));
    Canonical(g, ranks, den, CofPos(g, e1), CofPos(g, e2));
    Canonical(g, ranks, den, CofNeg(g, e1), CofNeg(g, e2));
    assert Twins(g, e1.node, e2.node);
  }

  lemma CofactorRanks(g: Nodes, ranks: seq<nat>, e: Edge)
    requires Shape(g, ranks) && e.node in g
    ensures In(g, CofPos(g, e)) && In(g, CofNeg(g, e))
    ensures Rank(g, ranks, e) < Rank(g, ranks, CofPos(g, e)) <= TERMID
    ensures Rank(g, ranks, e) < Rank(g, ranks, CofNeg(g, e)) <= TERMID
    ensures CofPos(g, e) != CofNeg(g, e)
  {
    assert NodeOk(g, ranks, e.node);
    RankBound(g, ranks, CofPos(g, e));
    RankBound(g, ranks, CofNeg(g, e));
  }

  lemma CofactorsIndep(g: Nodes, ranks: seq<nat>, den: Den, e: Edge)
    requires WF(g, ranks, den) && e.node in g
    ensures Indep(Sem(den, CofPos(g, e)), g[e.node].varid)
    ensures Indep(Sem(den, CofNeg(g, e)), g[e.node].varid)
  {
    CofactorRanks(g, ranks, e);
    SemIndep(g, ranks, den, CofPos(g, e), g[e.node].varid);
    SemIndep(g, ranks, den, CofNeg(g, e), g[e.node].varid);
  }

  /** Every node depends on its own variable. */
  lemma TopVariableMatters(g: Nodes, ranks: seq<nat>, den: Den, e: Edge)
    requires WF(g, ranks, den) && e.node in g
    ensures !Indep(Sem(den, e), g[e.node].varid)
    decreases TERMID - Rank(g, ranks, e), 0
  {
    var t, f := CofPos(g, e), CofNeg(g, e);
    CofactorRanks(g, ranks, e);
    CofactorsIndep(g, ranks, den, e);
    SemExpand(g, den, e);
    Canonical(g, ranks, den, t, f);
    ShannonDepends(g[e.node].varid, Sem(den, t), Sem(den, f));
  }
}
