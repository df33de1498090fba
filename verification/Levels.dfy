/** The node table while two adjacent variables are being swapped in place: which nodes are still
    in the old form, and why every step keeps all functions and canonicity. */
module Levels {
  import opened Functions
  import opened Graph

  /** v is the upper and w the lower variable; ranks is the order with the two exchanged. The
      nodes of todo are labelled v, have a child labelled w and are not processed yet; the node at address hole, if not 0, is
      being rewritten and is out of the table. */
  datatype Mid = Mid(g: Nodes, den: Den, ranks: seq<nat>, todo: set<nat>, hole: nat, v: nat, w: nat)

  ghost predicate Known(s: Mid, e: Edge) {
    e.node == 0 || e.node in s.g || e.node == s.hole
  }

  /** The level of an edge: an unprocessed node still sits on the upper level. */
  ghost function Level(s: Mid, e: Edge): nat {
    if e.node != 0 && e.node in s.todo then VarRank(s.ranks, s.w) else Rank(s.g, s.ranks, e)
  }

  ghost predicate Below(s: Mid, e: Edge) {
    Known(s, e) && Level(s, e) > VarRank(s.ranks, s.v)
  }

  /** A child of an unprocessed node: on the lower of the two levels, or below both. */
  ghost predicate TodoChild(s: Mid, e: Edge) {
    e.node == 0
    || (e.node in s.g && e.node !in s.todo
        && (if s.g[e.node].varid == s.w then Below(s, s.g[e.node].thn) && Below(s, s.g[e.node].els)
            else Below(s, e)))
  }

  ghost predicate OnLower(s: Mid, e: Edge) {
    e.node in s.g && s.g[e.node].varid == s.w
  }

  ghost predicate MidNode(s: Mid, n: nat)
    requires n in s.g
  {
    var nd := s.g[n];
    && nd.varid < |s.ranks| && !nd.thn.neg && nd.thn != nd.els
    && n in s.den && s.den[n] == Shannon(nd.varid, Sem(s.den, nd.thn), Sem(s.den, nd.els))
    && AllOnes(s.ranks) in s.den[n]
    && Known(s, nd.thn) && Known(s, nd.els)
    && (if n in s.todo then
          && nd.varid == s.v && TodoChild(s, nd.thn) && TodoChild(s, nd.els)
          && (OnLower(s, nd.thn) || OnLower(s, nd.els))
        else s.ranks[nd.varid] < Level(s, nd.thn) && s.ranks[nd.varid] < Level(s, nd.els))
  }

  ghost predicate SameFn(s: Mid, a: nat, b: nat) {
    && (a == 0 || a in s.den) && (b == 0 || b in s.den)
    && At(s.den, a) == At(s.den, b)
  }

  /** What is known of the node being rewritten. */
  ghost predicate HoleOk(s: Mid) {
    && s.hole !in s.g && s.hole in s.todo && s.hole in s.den
    && AllOnes(s.ranks) in s.den[s.hole]
    && !Indep(s.den[s.hole], s.w)
    && (forall x :: 0 <= x < |s.ranks| && s.ranks[x] < VarRank(s.ranks, s.w) ==> Indep(s.den[s.hole], x))
  }

  ghost predicate MidFrame(s: Mid) {
    && OrderOk(s.ranks) && s.v < |s.ranks| && s.w < |s.ranks|
    && s.ranks[s.v] == s.ranks[s.w] + 1
    && 0 !in s.g && 0 !in s.todo
    && s.den.Keys == s.g.Keys + (if s.hole == 0 then {} else {s.hole})
    && s.todo <= s.den.Keys
  }

  ghost predicate MidOk(s: Mid) {
    && MidFrame(s)
    && (forall n {:trigger MidNode(s, n)} :: n in s.g ==> MidNode(s, n))
    && (forall a, b {:trigger SameFn(s, a, b)} :: SameFn(s, a, b) ==> a == b)
    && (s.hole != 0 ==> HoleOk(s))
  }

  lemma LevelBound(s: Mid, e: Edge)
    requires MidFrame(s)
    ensures Level(s, e) <= TERMID
  {
    RankBound(s.g, s.ranks, e);
  }

  /** An edge ignores every variable above its level. */
  lemma {:induction false} MidIndep(s: Mid, e: Edge, x: nat)
    requires MidOk(s) && Known(s, e)
    requires x < |s.ranks| && s.ranks[x] < Level(s, e)
    ensures Indep(Sem(s.den, e), x)
    decreases TERMID - Level(s, e), e.node in s.todo
  {
    LevelBound(s, e);
    if e.node in s.g {
      assert MidNode(s, e.node);
      var nd := s.g[e.node];
      LevelBound(s, nd.thn);
      LevelBound(s, nd.els);
      MidIndep(s, nd.thn, x);
      MidIndep(s, nd.els, x);
      ShannonIndepOther(nd.varid, Sem(s.den, nd.thn), Sem(s.den, nd.els), x);
    } else if e.node == 0 {
      assert 0 !in s.den;
    }
    IndepNot(At(s.den, e.node), x);
  }

  /** Strong canonicity holds throughout. */
  lemma MidCanonical(s: Mid, e1: Edge, e2: Edge)
    requires MidOk(s) && Known(s, e1) && Known(s, e2) && Sem(s.den, e1) == Sem(s.den, e2)
    ensures e1 == e2
  {
    var a := AllOnes(s.ranks);
    PositiveAtAllOnes(s, e1);
    PositiveAtAllOnes(s, e2);
    NotNot(At(s.den, e1.node));
    NotNot(At(s.den, e2.node));
    assert SameFn(s, e1.node, e2.node);
  }

  lemma PositiveAtAllOnes(s: Mid, e: Edge)
    requires MidOk(s) && Known(s, e)
    ensures AllOnes(s.ranks) in Sem(s.den, e) <==> !e.neg
  {
    if e.node in s.g {
      assert MidNode(s, e.node);
    } else if e.node == 0 {
      assert 0 !in s.den;
    }
  }

  /** The children of a processed node ignore its variable, and differ; so it depends on it. */
  lemma MidDepends(s: Mid, n: nat)
    requires MidOk(s) && n in s.g && n !in s.todo
    ensures !Indep(s.den[n], s.g[n].varid)
  {
    assert MidNode(s, n);
    var nd := s.g[n];
    MidIndep(s, nd.thn, nd.varid);
    MidIndep(s, nd.els, nd.varid);
    if Sem(s.den, nd.thn) == Sem(s.den, nd.els) {
      MidCanonical(s, nd.thn, nd.els);
    }
    ShannonDepends(nd.varid, Sem(s.den, nd.thn), Sem(s.den, nd.els));
  }

  /** The children of an unprocessed node ignore its variable. */
  lemma TodoChildIndep(s: Mid, n: nat)
    requires MidOk(s) && n in s.g && n in s.todo
    ensures s.g[n].varid == s.v
    ensures Indep(Sem(s.den, s.g[n].thn), s.v) && Indep(Sem(s.den, s.g[n].els), s.v)
  {
    assert MidNode(s, n);
    TodoEdgeIndep(s, s.g[n].thn);
    TodoEdgeIndep(s, s.g[n].els);
  }

  lemma TodoEdgeIndep(s: Mid, e: Edge)
    requires MidOk(s) && TodoChild(s, e)
    ensures Indep(Sem(s.den, e), s.v)
  {
    if e.node in s.g && s.g[e.node].varid == s.w {
      assert MidNode(s, e.node);
      var nd := s.g[e.node];
      MidIndep(s, nd.thn, s.v);
      MidIndep(s, nd.els, s.v);
      ShannonIndepOther(s.w, Sem(s.den, nd.thn), Sem(s.den, nd.els), s.v);
      IndepNot(At(s.den, e.node), s.v);
    } else {
      LevelBound(s, e);
      if e.node == 0 { assert 0 !in s.den; }
      MidIndep(s, e, s.v);
    }
  }

  /** nd can be made at address n: a node for v whose children are below both levels. */
  ghost predicate NewUpper(s: Mid, n: nat, nd: Node) {
    && n !in s.den && n != 0
    && nd.varid == s.v && !nd.thn.neg && nd.thn != nd.els
    && Below(s, nd.thn) && Below(s, nd.els)
    && nd !in s.g.Values
  }

  ghost function NodeFn(den: Den, nd: Node): Fn {
    Shannon(nd.varid, Sem(den, nd.thn), Sem(den, nd.els))
  }

  ghost function WithNew(s: Mid, n: nat, nd: Node): Mid {
    s.(g := s.g[n := nd], den := s.den[n := NodeFn(s.den, nd)])
  }

  /** The function of the new node ignores every variable above v in the new order. */
  lemma NewFnIndep(s: Mid, n: nat, nd: Node, x: nat)
    requires MidOk(s) && NewUpper(s, n, nd) && x < |s.ranks| && s.ranks[x] < s.ranks[s.v]
    ensures Indep(NodeFn(s.den, nd), x)
  {
    MidIndep(s, nd.thn, x);
    MidIndep(s, nd.els, x);
    ShannonIndepOther(nd.varid, Sem(s.den, nd.thn), Sem(s.den, nd.els), x);
  }

  lemma NewFnDepends(s: Mid, n: nat, nd: Node)
    requires MidOk(s) && NewUpper(s, n, nd)
    ensures Indep(Sem(s.den, nd.thn), s.v) && Indep(Sem(s.den, nd.els), s.v)
    ensures !Indep(NodeFn(s.den, nd), s.v)
  {
    MidIndep(s, nd.thn, s.v);
    MidIndep(s, nd.els, s.v);
    if Sem(s.den, nd.thn) == Sem(s.den, nd.els) {
      MidCanonical(s, nd.thn, nd.els);
    }
    ShannonDepends(s.v, Sem(s.den, nd.thn), Sem(s.den, nd.els));
  }

  /** No node denotes the new node's function yet. */
  lemma NewFnIsNew(s: Mid, n: nat, nd: Node, k: nat)
    requires MidOk(s) && NewUpper(s, n, nd) && (k == 0 || k in s.den)
    ensures At(s.den, k) != NodeFn(s.den, nd)
  {
    NewFnDepends(s, n, nd);
    if k == s.hole && k != 0 {
      NewFnIndep(s, n, nd, s.w);
    } else if k == 0 {
      assert 0 !in s.den && Indep(True(), s.v);
    } else {
      assert MidNode(s, k);
      var x := s.g[k].varid;
      if x == s.v {
        NewFnOtherNode(s, n, nd, k);
      } else if s.ranks[x] < s.ranks[s.v] {
        NewFnIndep(s, n, nd, x);
        MidDepends(s, k);
      } else {
        assert k !in s.todo;
        MidIndep(s, Edge(k, false), s.v);
      }
    }
  }

  lemma NewFnOtherNode(s: Mid, n: nat, nd: Node, k: nat)
    requires MidOk(s) && NewUpper(s, n, nd) && k in s.g && s.g[k].varid == s.v
    ensures At(s.den, k) != NodeFn(s.den, nd)
  {
    NewFnDepends(s, n, nd);
    assert MidNode(s, k);
    var kd := s.g[k];
    if k in s.todo {
      TodoChildIndep(s, k);
    } else {
      MidIndep(s, kd.thn, s.v);
      MidIndep(s, kd.els, s.v);
    }
    assert s.g[k] in s.g.Values;
    if s.den[k] == NodeFn(s.den, nd) {
      ShannonInjective(s.v, Sem(s.den, kd.thn), Sem(s.den, kd.els), Sem(s.den, nd.thn), Sem(s.den, nd.els));
      MidCanonical(s, kd.thn, nd.thn);
      MidCanonical(s, kd.els, nd.els);
    }
  }

  lemma SameEdge(s: Mid, t: Mid, e: Edge)
    requires Known(s, e) && s.ranks == t.ranks && s.todo == t.todo && s.hole == t.hole && s.w == t.w && s.v == t.v
    requires e.node in s.g ==> e.node in t.g && t.g[e.node] == s.g[e.node]
    requires e.node !in s.g ==> e.node !in t.g
    requires e.node in s.den <==> e.node in t.den
    requires e.node in s.den ==> t.den[e.node] == s.den[e.node]
    ensures Known(t, e) && Level(t, e) == Level(s, e) && Sem(t.den, e) == Sem(s.den, e)
  {
  }

  /** Making a node keeps everything in order. */
  lemma MidNew(s: Mid, n: nat, nd: Node)
    requires MidOk(s) && NewUpper(s, n, nd)
    ensures MidOk(WithNew(s, n, nd))
  {
    var t := WithNew(s, n, nd);
    MidNewNodes(s, n, nd);
    forall a, b | SameFn(t, a, b)
      ensures a == b
    {
      if a == n && b != n {
        NewFnIsNew(s, n, nd, b);
      } else if b == n && a != n {
        NewFnIsNew(s, n, nd, a);
      } else if a != n && b != n {
        assert SameFn(s, a, b);
      }
    }
  }

  lemma MidNewNodes(s: Mid, n: nat, nd: Node)
    requires MidOk(s) && NewUpper(s, n, nd)
    ensures var t := WithNew(s, n, nd); forall k {:trigger MidNode(t, k)} :: k in t.g ==> MidNode(t, k)
  {
    var t := WithNew(s, n, nd);
    SameEdge(s, t, nd.thn);
    SameEdge(s, t, nd.els);
    PositiveAtAllOnes(s, nd.thn);
    forall k | k in t.g
      ensures MidNode(t, k)
    {
      if k == n {
        assert s.v in AllOnes(s.ranks);
        assert n !in s.todo;
      } else {
        assert MidNode(s, k);
        SameEdge(s, t, s.g[k].thn);
        SameEdge(s, t, s.g[k].els);
        if k in s.todo {
          SameTodoChild(s, t, s.g[k].thn);
          SameTodoChild(s, t, s.g[k].els);
        }
      }
    }
  }

  lemma SameTodoChild(s: Mid, t: Mid, e: Edge)
    requires MidOk(s) && TodoChild(s, e)
    requires s.ranks == t.ranks && s.todo == t.todo && s.hole == t.hole && s.w == t.w && s.v == t.v
    requires forall k :: k in s.g ==> k in t.g && t.g[k] == s.g[k]
    requires forall k :: k in s.den ==> k in t.den && t.den[k] == s.den[k]
    requires s.hole !in t.g && 0 !in t.g && 0 !in t.den && 0 !in s.den
    ensures TodoChild(t, e)
  {
    if e.node in s.g {
      assert MidNode(s, e.node);
      SameEdge(s, t, e);
      SameEdge(s, t, s.g[e.node].thn);
      SameEdge(s, t, s.g[e.node].els);
    }
  }

  ghost predicate Unreferenced(s: Mid, d: nat) {
    forall k :: k in s.g ==> s.g[k].thn.node != d && s.g[k].els.node != d
  }

  ghost function Without(s: Mid, d: nat): Mid {
    s.(g := s.g - {d}, den := s.den - {d})
  }

  /** Removing a processed node nothing refers to. */
  lemma MidRemove(s: Mid, d: nat)
    requires MidOk(s) && d in s.g && d !in s.todo && Unreferenced(s, d)
    ensures MidOk(Without(s, d))
  {
    var t := Without(s, d);
    forall k | k in t.g
      ensures MidNode(t, k)
    {
      assert MidNode(s, k);
      var nd := s.g[k];
      SameEdge(s, t, nd.thn);
      SameEdge(s, t, nd.els);
      if k in s.todo {
        RemoveTodoChild(s, d, nd.thn);
        RemoveTodoChild(s, d, nd.els);
      }
    }
    forall a, b | SameFn(t, a, b)
      ensures a == b
    {
      assert SameFn(s, a, b);
    }
  }

  lemma RemoveTodoChild(s: Mid, d: nat, e: Edge)
    requires MidOk(s) && d in s.g && d !in s.todo && Unreferenced(s, d)
    requires TodoChild(s, e) && e.node != d
    ensures TodoChild(Without(s, d), e)
  {
    var t := Without(s, d);
    SameEdge(s, t, e);
    if e.node in s.g {
      assert MidNode(s, e.node);
      SameEdge(s, t, s.g[e.node].thn);
      SameEdge(s, t, s.g[e.node].els);
    }
  }

  /** A node with a child on the lower level depends on the lower variable. */
  lemma OpenDepends(s: Mid, f: nat)
    requires MidOk(s) && f in s.g && f in s.todo
    ensures !Indep(s.den[f], s.w)
  {
    assert MidNode(s, f);
    var nd := s.g[f];
    TodoChildIndep(s, f);
    var e := if OnLower(s, nd.thn) then nd.thn else nd.els;
    MidDepends(s, e.node);
    IndepNot(At(s.den, e.node), s.w);
    if Indep(s.den[f], s.w) {
      BranchIndep(s.v, Sem(s.den, nd.thn), Sem(s.den, nd.els), s.w);
    }
  }

  ghost function Opened(s: Mid, f: nat): Mid {
    s.(g := s.g - {f}, hole := f)
  }

  /** Taking an unprocessed node out of the table in order to rewrite it. */
  lemma MidOpen(s: Mid, f: nat)
    requires MidOk(s) && s.hole == 0 && f in s.g && f in s.todo
    ensures MidOk(Opened(s, f))
  {
    var t := Opened(s, f);
    OpenDepends(s, f);
    assert MidNode(s, f);
    forall x | 0 <= x < |s.ranks| && s.ranks[x] < s.ranks[s.w]
      ensures Indep(s.den[f], x)
    {
      MidIndep(s, Edge(f, false), x);
    }
    forall k | k in t.g
      ensures MidNode(t, k)
    {
      assert MidNode(s, k);
      OpenEdge(s, f, s.g[k].thn);
      OpenEdge(s, f, s.g[k].els);
      if k in s.todo {
        OpenTodoChild(s, f, s.g[k].thn);
        OpenTodoChild(s, f, s.g[k].els);
      }
    }
    forall a, b | SameFn(t, a, b)
      ensures a == b
    {
      assert SameFn(s, a, b);
    }
  }

  lemma OpenEdge(s: Mid, f: nat, e: Edge)
    requires MidFrame(s) && s.hole == 0 && f in s.g && f in s.todo && Known(s, e)
    ensures Known(Opened(s, f), e) && Level(Opened(s, f), e) == Level(s, e)
  {
  }

  lemma OpenTodoChild(s: Mid, f: nat, e: Edge)
    requires MidFrame(s) && s.hole == 0 && f in s.g && f in s.todo && TodoChild(s, e)
    ensures TodoChild(Opened(s, f), e)
  {
    if e.node in s.g {
      if Known(s, s.g[e.node].thn) { OpenEdge(s, f, s.g[e.node].thn); }
      if Known(s, s.g[e.node].els) { OpenEdge(s, f, s.g[e.node].els); }
      OpenEdge(s, f, e);
    }
  }

  ghost function Closed(s: Mid, nd: Node): Mid {
    s.(g := s.g[s.hole := nd], todo := s.todo - {s.hole}, hole := 0)
  }

  ghost predicate Rewrites(s: Mid, nd: Node) {
    && s.hole != 0 && s.hole in s.den && s.w < |s.ranks|
    && nd.varid == s.w && !nd.thn.neg
    && Known(s, nd.thn) && Known(s, nd.els)
    && Level(s, nd.thn) > s.ranks[s.w] && Level(s, nd.els) > s.ranks[s.w]
    && s.den[s.hole] == NodeFn(s.den, nd)
  }

  /** The rewritten node rejoins the table, labelled with the lower variable. */
  lemma MidClose(s: Mid, nd: Node)
    requires MidOk(s) && Rewrites(s, nd)
    ensures nd.thn != nd.els && MidOk(Closed(s, nd))
  {
    var t := Closed(s, nd);
    if nd.thn == nd.els {
      ShannonSame(s.w, Sem(s.den, nd.thn));
      MidIndep(s, nd.thn, s.w);
    }
    forall k | k in t.g
      ensures MidNode(t, k)
    {
      if k == s.hole {
        CloseEdge(s, nd, nd.thn, s.ranks[s.w]);
        CloseEdge(s, nd, nd.els, s.ranks[s.w]);
      } else {
        assert MidNode(s, k);
        if k in s.todo {
          CloseTodoChild(s, nd, s.g[k].thn);
          CloseTodoChild(s, nd, s.g[k].els);
        } else {
          CloseEdge(s, nd, s.g[k].thn, s.ranks[s.g[k].varid]);
          CloseEdge(s, nd, s.g[k].els, s.ranks[s.g[k].varid]);
        }
      }
    }
    forall a, b | SameFn(t, a, b)
      ensures a == b
    {
      assert SameFn(s, a, b);
    }
  }

  lemma CloseEdge(s: Mid, nd: Node, e: Edge, r: nat)
    requires MidFrame(s) && s.hole in s.todo && Rewrites(s, nd) && Known(s, e) && Level(s, e) > r
    ensures Known(Closed(s, nd), e) && Level(Closed(s, nd), e) > r
  {
  }

  lemma CloseTodoChild(s: Mid, nd: Node, e: Edge)
    requires MidOk(s) && Rewrites(s, nd) && TodoChild(s, e)
    ensures TodoChild(Closed(s, nd), e)
  {
    if e.node in s.g {
      var kd := s.g[e.node];
      if kd.varid == s.w {
        CloseEdge(s, nd, kd.thn, s.ranks[s.v]);
        CloseEdge(s, nd, kd.els, s.ranks[s.v]);
      } else {
        CloseEdge(s, nd, e, s.ranks[s.v]);
      }
    }
  }

  ghost function SwapRanks(ranks: seq<nat>, v: nat, w: nat): seq<nat>
    requires v < |ranks| && w < |ranks|
  {
    ranks[v := ranks[w]][w := ranks[v]]
  }

  predicate LabelledAt(g: Nodes, e: Edge, w: nat) {
    e.node in g && g[e.node].varid == w
  }

  /** The nodes of the upper level that have a child on the lower one. */
  ghost function Upper(g: Nodes, v: nat, w: nat): set<nat> {
    set n | n in g && g[n].varid == v && (LabelledAt(g, g[n].thn, w) || LabelledAt(g, g[n].els, w))
  }

  ghost function Start(g: Nodes, den: Den, ranks: seq<nat>, v: nat, w: nat): Mid
    requires v < |ranks| && w < |ranks|
  {
    Mid(g, den, SwapRanks(ranks, v, w), Upper(g, v, w), 0, v, w)
  }

  lemma SwapOrderOk(ranks: seq<nat>, v: nat, w: nat)
    requires OrderOk(ranks) && v < |ranks| && w < |ranks| && v != w
    ensures OrderOk(SwapRanks(ranks, v, w))
    ensures AllOnes(SwapRanks(ranks, v, w)) == AllOnes(ranks)
  {
  }

  /** Before anything is processed. */
  lemma MidStart(g: Nodes, den: Den, ranks: seq<nat>, v: nat, w: nat)
    requires WF(g, ranks, den) && v < |ranks| && w < |ranks| && ranks[w] == ranks[v] + 1
    ensures MidOk(Start(g, den, ranks, v, w))
  {
    hide MidNode, SameFn, OrderOk;
    var s := Start(g, den, ranks, v, w);
    SwapOrderOk(ranks, v, w);
    forall k | k in g
      ensures MidNode(s, k)
    {
      StartNode(g, den, ranks, v, w, k);
    }
    forall a, b | SameFn(s, a, b)
      ensures a == b
    {
      StartCanonical(g, den, ranks, v, w, a, b);
    }
  }

  lemma StartCanonical(g: Nodes, den: Den, ranks: seq<nat>, v: nat, w: nat, a: nat, b: nat)
    requires WF(g, ranks, den) && v < |ranks| && w < |ranks|
    requires SameFn(Start(g, den, ranks, v, w), a, b)
    ensures a == b
  {
    Canonical(g, ranks, den, Edge(a, false), Edge(b, false));
  }

  lemma StartNode(g: Nodes, den: Den, ranks: seq<nat>, v: nat, w: nat, k: nat)
    requires WF(g, ranks, den) && v < |ranks| && w < |ranks| && ranks[w] == ranks[v] + 1
    requires k in g
    ensures MidNode(Start(g, den, ranks, v, w), k)
  {
    assert NodeOk(g, ranks, k) && NodeDenotes(g, den, k);
    PositiveIffAllOnes(g, ranks, den, Edge(k, false), AllOnes(ranks));
    SwapOrderOk(ranks, v, w);
    var x := g[k].varid;
    assert ranks[x] == ranks[v] ==> x == v;
    assert ranks[x] == ranks[w] ==> x == w;
    StartEdge(g, den, ranks, v, w, g[k].thn, ranks[x]);
    StartEdge(g, den, ranks, v, w, g[k].els, ranks[x]);
  }

  lemma StartEdge(g: Nodes, den: Den, ranks: seq<nat>, v: nat, w: nat, e: Edge, r: nat)
    requires WF(g, ranks, den) && v < |ranks| && w < |ranks| && ranks[w] == ranks[v] + 1
    requires In(g, e) && r < Rank(g, ranks, e) && r < |ranks|
    ensures var s := Start(g, den, ranks, v, w);
      && Known(s, e)
      && (r == ranks[v] ==> TodoChild(s, e) && (LabelledAt(g, e, w) || ranks[w] < Level(s, e)))
      && (r == ranks[w] ==> ranks[v] < Level(s, e))
      && (r != ranks[v] && r != ranks[w] ==> r < Level(s, e))
  {
    if e.node in g {
      assert NodeOk(g, ranks, e.node);
    }
  }

  /** When nothing is left to process the table is well formed in the new order. */
  lemma MidEnd(s: Mid)
    requires MidOk(s) && s.hole == 0 && s.todo == {}
    ensures WF(s.g, s.ranks, s.den)
  {
    forall k | k in s.g
      ensures NodeOk(s.g, s.ranks, k) && NodeDenotes(s.g, s.den, k)
    {
      assert MidNode(s, k);
    }
    forall a, b | Twins(s.g, a, b)
      ensures a == b
    {
      assert MidNode(s, a) && MidNode(s, b);
      assert SameFn(s, a, b);
    }
  }
}
