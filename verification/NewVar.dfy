/** Creating variables: a new variable enters the order, and nothing else changes. */
module NewVar {
  import opened Functions
  import opened Graph
  import opened RefCount
  import opened Nearest
  import opened Simplify
  import opened State
  import opened Tables
  import opened IteOps
  import opened ConstrainOps
  import opened Groups
  import opened Reorder
  import Slots
  import RestrictOps

  /** The order with a variable inserted on rank r. */
  function RanksWith(ranks: seq<nat>, r: nat): seq<nat> {
    seq(|ranks|, i requires 0 <= i < |ranks| => if ranks[i] >= r then ranks[i] + 1 else ranks[i]) + [r]
  }

  function SpaceWith(space: seq<nat>, r: nat): seq<nat>
    requires r <= |space|
  {
    space[..r] + [|space|] + space[r..]
  }

  lemma InsertInverse(ranks: seq<nat>, space: seq<nat>, r: nat)
    requires Inverse(ranks, space) && r <= |space|
    ensures Inverse(RanksWith(ranks, r), SpaceWith(space, r))
  {
    var ranks', space' := RanksWith(ranks, r), SpaceWith(space, r);
    var n := |space|;
    assert forall k :: 0 <= k < r ==> space'[k] == space[k];
    assert space'[r] == n;
    assert forall k :: r < k <= n ==> space'[k] == space[k - 1];
    forall v | 0 <= v < |ranks'|
      ensures ranks'[v] < |space'| && space'[ranks'[v]] == v
    {
      if v < n {
        assert space[ranks[v]] == v;
      }
    }
    forall k | 0 <= k < |space'|
      ensures space'[k] < |ranks'| && ranks'[space'[k]] == k
    {
      if k < r {
        assert ranks[space[k]] == k;
      } else if k > r {
        assert ranks[space[k - 1]] == k - 1;
      }
    }
  }

  lemma InsertOrder(ranks: seq<nat>, r: nat)
    requires OrderOk(ranks) && |ranks| < TERMID && r <= |ranks|
    ensures OrderOk(RanksWith(ranks, r))
  {
  }

  /** Ranks keep their order. */
  lemma InsertRank(g: Nodes, ranks: seq<nat>, r: nat, e: Edge)
    requires Shape(g, ranks) && r <= |ranks| < TERMID
    ensures var q, q' := Rank(g, ranks, e), Rank(g, RanksWith(ranks, r), e);
      q' == if e.node in g && q >= r then q + 1 else q
  {
    if e.node in g {
      assert NodeOk(g, ranks, e.node);
    }
  }

  lemma InsertLess(g: Nodes, ranks: seq<nat>, r: nat, e: Edge, e': Edge)
    requires Shape(g, ranks) && r <= |ranks| < TERMID
    ensures Rank(g, ranks, e) < Rank(g, ranks, e') ==> Rank(g, RanksWith(ranks, r), e) < Rank(g, RanksWith(ranks, r), e')
    ensures Rank(g, ranks, e) <= Rank(g, ranks, e') ==> Rank(g, RanksWith(ranks, r), e) <= Rank(g, RanksWith(ranks, r), e')
  {
    InsertRank(g, ranks, r, e);
    InsertRank(g, ranks, r, e');
    TerminalRank(g, ranks, e);
    TerminalRank(g, ranks, e');
    if e.node in g {
      assert NodeOk(g, ranks, e.node);
    }
  }

  lemma InsertTable(s: Table, ranks: seq<nat>, r: nat)
    requires TableOk(s, ranks) && |ranks| < TERMID && r <= |ranks|
    ensures TableOk(s, RanksWith(ranks, r))
  {
    hide RefsOk, Denotes;
    InsertOrder(ranks, r);
    forall n | n in s.g
      ensures NodeOk(s.g, RanksWith(ranks, r), n)
    {
      assert NodeOk(s.g, ranks, n);
      InsertLess(s.g, ranks, r, Edge(n, false), s.g[n].thn);
      InsertLess(s.g, ranks, r, Edge(n, false), s.g[n].els);
    }
  }

  /** A variable that c ignores makes no difference to the nearest point. */
  lemma {:induction false} InsertProj(space: seq<nat>, r: nat, q: nat, c: Fn, a: Asg)
    requires q <= r <= |space| && |space| !in space && Indep(c, |space|) && c != iset{}
    ensures Proj(SpaceWith(space, r), q, c, a) == Proj(space, q, c, a)
    decreases r - q
  {
    var space' := SpaceWith(space, r);
    if q == r {
      CofIndep(c, |space|, |space| in a);
      assert space'[r] == |space|;
      ProjShift(space, r, r, c, a);
    } else {
      assert space'[q] == space[q];
      var y, b := space[q], space[q] in a;
      CofIndepOther(c, y, b, |space|);
      CofIndepOther(c, y, !b, |space|);
      if Cof(c, y, b) != iset{} {
        InsertProj(space, r, q + 1, Cof(c, y, b), a);
      } else {
        OtherCof(c, y, b);
        InsertProj(space, r, q + 1, Cof(c, y, !b), Assign(a, y, !b));
      }
    }
  }

  lemma OtherCof(c: Fn, y: nat, b: bool)
    requires c != iset{} && Cof(c, y, b) == iset{}
    ensures Cof(c, y, !b) != iset{}
  {
    var z :| z in c;
    AssignTwice(z, y, y in z, y in z);
    assert z in Cof(c, y, y in z);
  }

  lemma {:induction false} ProjShift(space: seq<nat>, r: nat, q: nat, c: Fn, a: Asg)
    requires r <= q <= |space|
    ensures Proj(SpaceWith(space, r), q + 1, c, a) == Proj(space, q, c, a)
    decreases |space| - q
  {
    if q < |space| {
      assert SpaceWith(space, r)[q + 1] == space[q];
      var y, b := space[q], space[q] in a;
      ProjShift(space, r, q + 1, Cof(c, y, b), a);
      ProjShift(space, r, q + 1, Cof(c, y, !b), Assign(a, y, !b));
    }
  }

  lemma InsertConstrain(s: Table, ranks: seq<nat>, space: seq<nat>, r: nat, f: Edge, c: Edge)
    requires TableOk(s, ranks) && Inverse(ranks, space) && r <= |space| && In(s.g, c) && c != ZERO
    ensures ConstrainEdges(s.den, SpaceWith(space, r), f, c) == ConstrainEdges(s.den, space, f, c)
  {
    EmptyIsZero(s, ranks, c);
    SemForeign(s.g, ranks, s.den, c, |space|);
    forall i | 0 <= i < |space|
      ensures space[i] != |space|
    {
      assert space[i] < |ranks|;
    }
    forall a: Asg
      ensures Proj(SpaceWith(space, r), 0, Sem(s.den, c), a) == Proj(space, 0, Sem(s.den, c), a)
    {
      InsertProj(space, r, 0, Sem(s.den, c), a);
    }
  }

  lemma {:induction false} RestrictShift(space: seq<nat>, r: nat, q: nat, f: Fn, c: Fn)
    requires r <= q <= |space|
    ensures RestrictFrom(SpaceWith(space, r), q + 1, f, c) == RestrictFrom(space, q, f, c)
    decreases |space| - q
  {
    hide RestrictFrom, Indep, Cof, Shannon;
    var space' := SpaceWith(space, r);
    if q < |space| {
      assert space'[q + 1] == space[q];
      var y := space[q];
      RestrictOne(space, q, f, c);
      RestrictOne(space', q + 1, f, c);
      RestrictShift(space, r, q + 1, f, Cof(c, y, true) + Cof(c, y, false));
      RestrictShift(space, r, q + 1, Cof(f, y, true), Cof(c, y, true));
      RestrictShift(space, r, q + 1, Cof(f, y, false), Cof(c, y, false));
    } else {
      RestrictEnd(space, q, f, c);
      RestrictEnd(space', q + 1, f, c);
    }
  }

  lemma RestrictEnd(space: seq<nat>, q: nat, f: Fn, c: Fn)
    requires q >= |space|
    ensures RestrictFrom(space, q, f, c) == f
  {
  }

  /** A variable that f and c ignore makes no difference to the restricted function. */
  lemma {:induction false} InsertRestrictFrom(space: seq<nat>, r: nat, q: nat, f: Fn, c: Fn)
    requires q <= r <= |space| && |space| !in space && Indep(f, |space|) && Indep(c, |space|)
    ensures RestrictFrom(SpaceWith(space, r), q, f, c) == RestrictFrom(space, q, f, c)
    decreases r - q
  {
    hide RestrictFrom, Indep, Cof, Shannon;
    var space', n := SpaceWith(space, r), |space|;
    if q == r {
      assert space'[r] == n;
      SkipOne(space', r, f, c);
      RestrictShift(space, r, r, f, c);
    } else {
      assert space'[q] == space[q];
      var y := space[q];
      CofIndepOther(f, y, true, n);
      CofIndepOther(f, y, false, n);
      CofIndepOther(c, y, true, n);
      CofIndepOther(c, y, false, n);
      RestrictOps.IndepUnion(Cof(c, y, true), Cof(c, y, false), n);
      RestrictOne(space, q, f, c);
      RestrictOne(space', q, f, c);
      InsertRestrictFrom(space, r, q + 1, f, Cof(c, y, true) + Cof(c, y, false));
      InsertRestrictFrom(space, r, q + 1, Cof(f, y, true), Cof(c, y, true));
      InsertRestrictFrom(space, r, q + 1, Cof(f, y, false), Cof(c, y, false));
    }
  }

  lemma InsertRestrict(s: Table, ranks: seq<nat>, space: seq<nat>, r: nat, f: Edge, c: Edge)
    requires TableOk(s, ranks) && Inverse(ranks, space) && r <= |space| && In(s.g, f) && In(s.g, c)
    ensures RestrictOps.RestrictEdges(s.den, SpaceWith(space, r), f, c) == RestrictOps.RestrictEdges(s.den, space, f, c)
  {
    SemForeign(s.g, ranks, s.den, f, |space|);
    SemForeign(s.g, ranks, s.den, c, |space|);
    forall i | 0 <= i < |space|
      ensures space[i] != |space|
    {
      assert space[i] < |ranks|;
    }
    hide RestrictFrom;
    InsertRestrictFrom(space, r, 0, Sem(s.den, f), Sem(s.den, c));
  }

  lemma InsertRight(e: Entry, s: Table, ranks: seq<nat>, space: seq<nat>, r: nat)
    requires TableOk(s, ranks) && Inverse(ranks, space) && r <= |space| < TERMID
    requires Named(e, s.g) && Right(e, s.g, ranks, space, s.den)
    ensures Right(e, s.g, RanksWith(ranks, r), SpaceWith(space, r), s.den)
  {
    if e.Entry? {
      InsertLess(s.g, ranks, r, e.g, e.r);
      InsertLess(s.g, ranks, r, e.h, e.r);
      match e.op
      case OpIte(f) =>
        InsertLess(s.g, ranks, r, f, e.r);
      case OpConstrain =>
        InsertConstrain(s, ranks, space, r, e.g, e.h);
      case OpRestrict =>
        InsertRestrict(s, ranks, space, r, e.g, e.h);
    }
  }

  /** Every computed-table entry is right in the new order. */
  lemma InsertCache(c: seq<Entry>, s: Table, ranks: seq<nat>, space: seq<nat>, r: nat)
    requires TableOk(s, ranks) && Inverse(ranks, space) && r <= |space| < TERMID
    requires CacheOk(c, s.g, ranks, space, s.den)
    ensures CacheOk(c, s.g, RanksWith(ranks, r), SpaceWith(space, r), s.den)
  {
    hide TableOk, Inverse, Right, Named;
    forall i | 0 <= i < |c|
      ensures Named(c[i], s.g) && Right(c[i], s.g, RanksWith(ranks, r), SpaceWith(space, r), s.den)
    {
      InsertRight(c[i], s, ranks, space, r);
    }
  }

  /** The groups with a new one of a single rank put before group k. */
  function GroupsWith(groups: seq<Group>, k: nat): seq<Group>
    requires k <= |groups|
  {
    groups[..k] + [Group(First(groups, k), false)] + Bumped(groups[k..])
  }

  /** Groups that end one rank later. */
  function Bumped(groups: seq<Group>): (b: seq<Group>)
    ensures |b| == |groups|
  {
    seq(|groups|, i requires 0 <= i < |groups| => Later(groups[i]))
  }

  lemma FirstInside(l: Layout, k: nat)
    requires Contiguous(l) && k <= |l.groups|
    ensures First(l.groups, k) <= |l.space|
  {
    if 0 < k { assert GroupOk(l, k - 1); }
  }

  /** The layout with a new variable, in a group by itself, before group k. */
  function WithGroup(l: Layout, k: nat): Layout
    requires Contiguous(l) && k <= |l.groups|
  {
    FirstInside(l, k);
    Layout(SpaceWith(l.space, First(l.groups, k)), GroupsWith(l.groups, k))
  }

  lemma InsertGroup(l: Layout, k: nat)
    requires Contiguous(l) && k <= |l.groups|
    ensures Contiguous(WithGroup(l, k))
  {
    FirstInside(l, k);
    if k < |l.groups| { assert GroupOk(l, k); }
    if 0 < k { assert GroupOk(l, k - 1); }
    var l' := WithGroup(l, k);
    forall g | 0 <= g < |l'.groups|
      ensures GroupOk(l', g)
    {
      if g < k {
        assert GroupOk(l, g);
      } else if g > k {
        assert GroupOk(l, g - 1);
      }
    }
  }

  /** Every old group keeps its variables; the new variable is a group by itself. */
  lemma InsertGroupBlocks(l: Layout, k: nat, g: nat)
    requires Contiguous(l) && k <= |l.groups| && g <= |l.groups|
    ensures Contiguous(WithGroup(l, k))
    ensures Block(WithGroup(l, k), g)
         == if g < k then Block(l, g) else if g == k then [|l.space|] else Block(l, g - 1)
    ensures WithGroup(l, k).groups[g].orderable <==>
      if g < k then l.groups[g].orderable else g > k && l.groups[g - 1].orderable
  {
    hide GroupsWith, Contiguous, SpaceWith, First;
    InsertGroup(l, k);
    FirstInside(l, k);
    InsertBounds(l, k, g);
    var f, r := First(l.groups, k), if g < k then g else g - 1;
    if g != k {
      OneGroup(l, r);
      if g < k { LastBefore(l, g, k); } else { LastBefore(l, k, r); }
      SpaceSlices(l.space, f, First(l.groups, r), l.groups[r].last + 1);
    } else {
      SpaceSlices(l.space, f, f, f);
    }
  }

  lemma InsertBounds(l: Layout, k: nat, g: nat)
    requires Contiguous(l) && k <= |l.groups| && g <= |l.groups|
    ensures var gs := GroupsWith(l.groups, k);
      && |gs| == |l.groups| + 1
      && First(gs, g) == (if g <= k then First(l.groups, g) else First(l.groups, g - 1) + 1)
      && gs[g].last == (if g < k then l.groups[g].last else if g == k then First(l.groups, k) else l.groups[g - 1].last + 1)
      && gs[g].orderable == if g < k then l.groups[g].orderable else g > k && l.groups[g - 1].orderable
  {
  }

  lemma SpaceSlices(space: seq<nat>, r: nat, a: nat, b: nat)
    requires r <= |space| && a <= b <= |space|
    ensures b <= r ==> SpaceWith(space, r)[a..b] == space[a..b]
    ensures r <= a ==> SpaceWith(space, r)[a + 1..b + 1] == space[a..b]
    ensures SpaceWith(space, r)[r..r + 1] == [|space|]
  {
  }

  lemma LastBefore(l: Layout, g: nat, k: nat)
    requires Contiguous(l) && g <= k <= |l.groups|
    ensures First(l.groups, g) <= First(l.groups, k)
    ensures g < k ==> l.groups[g].last < First(l.groups, k)
    decreases k - g
  {
    if g < k {
      assert GroupOk(l, g);
      LastBefore(l, g + 1, k);
    }
  }

  /** The loop that shifts the ranks from rank on. */
  method ShiftRanks(m: Manager, rank: nat)
    requires m.ranks != []
    modifies m`ranks
    ensures m.ranks == RanksWith(old(m.ranks)[..old(|m.ranks|) - 1], rank)
  {
    ghost var was := m.ranks;
    var n := |m.ranks| - 1;
    for i := 0 to n
      invariant |m.ranks| == n + 1
      invariant forall k :: 0 <= k < n ==>
        m.ranks[k] == if k < i && was[k] >= rank then was[k] + 1 else was[k]
    {
      if m.ranks[i] >= rank {
        m.ranks := m.ranks[i := m.ranks[i] + 1];
      }
    }
    m.ranks := m.ranks[n := rank];
  }

  /** The loop that shifts the tables from rank on. */
  method ShiftSpace(m: Manager, rank: nat)
    requires m.space != [] && rank < |m.space| && m.space[|m.space| - 1] == |m.space| - 1
    modifies m`space
    ensures m.space == SpaceWith(old(m.space)[..old(|m.space|) - 1], rank)
  {
    ghost var was := m.space;
    var tab := m.space[|m.space| - 1];
    var i := |m.space| - 1;
    while i > rank
      invariant rank <= i < |m.space| == |was|
      invariant m.space == was[..i + 1] + was[i..|was| - 1]
    {
      m.space := m.space[i := m.space[i - 1]];
      i := i - 1;
    }
    m.space := m.space[rank := tab];
  }

  /** The loop that shifts the groups from group k on. */
  method ShiftGroups(m: Manager, k: nat, rank: nat)
    requires m.groups != [] && k < |m.groups| && rank == First(m.groups, k)
    modifies m`groups
    ensures m.groups == GroupsWith(old(m.groups)[..old(|m.groups|) - 1], k)
  {
    hide GroupsWith, Bumped, First;
    ghost var was := m.groups;
    var g := |m.groups| - 1;
    while g > k
      invariant k <= g < |m.groups| == |was|
      invariant forall i {:trigger m.groups[i]} {:trigger was[i]} :: 0 <= i <= g ==> m.groups[i] == was[i]
      invariant forall i {:trigger m.groups[i]} :: g < i < |was| ==> m.groups[i] == Later(was[i - 1])
    {
      m.groups := m.groups[g := Later(m.groups[g - 1])];
      g := g - 1;
    }
    m.groups := m.groups[k := Group(rank, false)];
    ShiftedGroups(was, m.groups, k);
  }

  /** A group that ends one rank later. */
  function Later(g: Group): Group {
    g.(last := g.last + 1)
  }

  lemma ShiftedGroups(was: seq<Group>, now: seq<Group>, k: nat)
    requires k < |was| == |now| && now[k] == Group(First(was, k), false)
    requires forall i {:trigger now[i]} {:trigger was[i]} :: 0 <= i < k ==> now[i] == was[i]
    requires forall i {:trigger now[i]} :: k < i < |was| ==> now[i] == Later(was[i - 1])
    ensures now == GroupsWith(was[..|was| - 1], k)
  {
    var rest := was[..|was| - 1];
    assert First(rest, k) == First(was, k);
    forall i | 0 <= i < |now|
      ensures now[i] == GroupsWith(rest, k)[i]
    {
    }
  }

  /** A new variable comes before group k: first appended at the end, then shifted into place. */
  method Insert(m: Manager, k: nat)
    requires m.Valid() && Contiguous(LayoutOf(m)) && |m.ranks| < TERMID && k <= |m.groups|
    modifies m`ranks, m`space, m`groups
    ensures m.Valid() && Contiguous(old(LayoutOf(m))) && LayoutOf(m) == WithGroup(old(LayoutOf(m)), k)
    ensures m.ranks == RanksWith(old(m.ranks), First(old(m.groups), k))
  {
    hide TableOk, CacheOk, RanksWith, SpaceWith, GroupsWith;
    ghost var l, ranks := LayoutOf(m), m.ranks;
    var n := |m.ranks|;
    var rank := First(m.groups, k);
    FirstInside(l, k);
    InsertTable(m.Tab(), m.ranks, rank);
    InsertCache(m.cache, m.Tab(), m.ranks, m.space, rank);
    InsertInverse(m.ranks, m.space, rank);
    var last := k == |m.groups|;
    m.ranks := m.ranks + [n];
    m.space := m.space + [n];
    m.groups := m.groups + [Group(n, false)];
    if last {
      AppendIsInsert(l, ranks);
    } else {
      assert m.ranks[..n] == ranks && m.space[..n] == l.space && m.groups[..|l.groups|] == l.groups;
      FirstPrefix(l.groups, m.groups, k);
      OneGroup(l, k);
      ShiftRanks(m, rank);
      ShiftSpace(m, rank);
      ShiftGroups(m, k, rank);
    }
  }

  lemma FirstPrefix(groups: seq<Group>, groups': seq<Group>, k: nat)
    requires k <= |groups| <= |groups'| && groups'[..|groups|] == groups
    ensures First(groups', k) == First(groups, k)
  {
    assert k > 0 ==> groups'[k - 1] == groups'[..|groups|][k - 1];
  }

  lemma AppendIsInsert(l: Layout, ranks: seq<nat>)
    requires Contiguous(l) && Inverse(ranks, l.space)
    ensures First(l.groups, |l.groups|) == |l.space| == |ranks|
    ensures RanksWith(ranks, |ranks|) == ranks + [|ranks|]
    ensures SpaceWith(l.space, |l.space|) == l.space + [|l.space|]
    ensures GroupsWith(l.groups, |l.groups|) == l.groups + [Group(|l.space|, false)]
  {
  }

  /** Variables up to v, each new one last in the order and in a group by itself. */
  ghost predicate Extended(l: Layout, ranks: seq<nat>, l': Layout, ranks': seq<nat>, v: nat) {
    && |ranks'| == (if v < |ranks| then |ranks| else v + 1) && |l'.space| == |ranks'|
    && ranks <= ranks' && l.space <= l'.space && l.groups <= l'.groups
    && |l'.groups| - |l.groups| == |ranks'| - |ranks|
    && (forall i {:trigger ranks'[i]} {:trigger l'.space[i]} :: |ranks| <= i < |ranks'| ==> ranks'[i] == l'.space[i] == i)
    && (forall i {:trigger l'.groups[i]} :: |l.groups| <= i < |l'.groups| ==>
          l'.groups[i] == Group(|ranks| + i - |l.groups|, false))
  }

  lemma ExtendedRefl(l: Layout, ranks: seq<nat>, v: nat)
    requires Inverse(ranks, l.space) && v < |ranks|
    ensures Extended(l, ranks, l, ranks, v)
  {
  }

  lemma ExtendedStep(l: Layout, ranks: seq<nat>, l1: Layout, ranks1: seq<nat>, v: nat)
    requires |ranks| <= v && |l.space| == |ranks|
    requires if v == |ranks| then l1 == l && ranks1 == ranks else Extended(l, ranks, l1, ranks1, v - 1)
    ensures Extended(l, ranks, Layout(l1.space + [v], l1.groups + [Group(v, false)]), ranks1 + [v], v)
  {
  }

  /** bdd_make_fit_unique_table */
  method MakeFit(m: Manager, v: nat)
    requires m.Valid() && Contiguous(LayoutOf(m)) && v < TERMID
    modifies m`ranks, m`space, m`groups
    ensures m.Valid() && Contiguous(LayoutOf(m))
    ensures Extended(old(LayoutOf(m)), old(m.ranks), LayoutOf(m), m.ranks, v)
  {
    hide TableOk, CacheOk, RanksWith, SpaceWith, GroupsWith, Contiguous, Inverse, Extended;
    ghost var l, ranks := LayoutOf(m), m.ranks;
    InverseSize(m.ranks, m.space);
    if v < |m.ranks| {
      ExtendedRefl(l, ranks, v);
    }
    while |m.ranks| <= v
      invariant m.Valid() && Contiguous(LayoutOf(m)) && |ranks| <= |m.ranks|
      invariant |m.ranks| <= (if v < |ranks| then |ranks| else v + 1)
      invariant if |m.ranks| == |ranks| && |ranks| <= v then LayoutOf(m) == l && m.ranks == ranks
                else Extended(l, ranks, LayoutOf(m), m.ranks, if v < |ranks| then v else |m.ranks| - 1)
      decreases v + 1 - |m.ranks|
    {
      ghost var l1, ranks1 := LayoutOf(m), m.ranks;
      AppendIsInsert(l1, ranks1);
      Insert(m, |m.groups|);
      InsertGroup(l1, |l1.groups|);
      ExtendedStep(l, ranks, l1, ranks1, |ranks1|);
    }
  }

  /** The place of the new variable: last, first, or behind the group of v. */
  ghost predicate Place(l: Layout, ranks: seq<nat>, g: Nodes, v: Pointer, k: nat) {
    && Contiguous(l) && k <= |l.groups|
    && (if v.Void? then k == |l.groups|
        else if v.e.node !in g then k == 0
        else 0 < k && g[v.e.node].varid in Block(l, k - 1))
  }

  /** bdd_create_var_after */
  method CreateVarAfter(m: Manager, v: Pointer) returns (R: Edge, ghost k: nat)
    requires m.Valid() && Contiguous(LayoutOf(m)) && |m.ranks| < TERMID && (v.To? ==> In(m.nodes, v.e))
    modifies m
    ensures m.Valid() && Contiguous(LayoutOf(m)) && m.reorder == old(m.reorder)
    ensures Place(old(LayoutOf(m)), old(m.ranks), old(m.nodes), v, k)
    ensures Contiguous(old(LayoutOf(m))) && LayoutOf(m) == WithGroup(old(LayoutOf(m)), k)
    ensures m.ranks == RanksWith(old(m.ranks), First(old(m.groups), k))
    ensures Delivers(old(m.Tab()), m.Tab(), R, Shannon(old(|m.ranks|), True(), iset{}))
    ensures |m.ranks| == old(|m.ranks|) + 1
  {
    hide TableOk, CacheOk, Kept, RanksWith, Block, WithGroup, Contiguous, Inverse;
    ghost var l := LayoutOf(m);
    var n, at := |m.ranks|, |m.groups|;
    EmptyLayout(l, m.Tab(), m.ranks);
    if v.Void? || n == 0 {
    } else if v.e.node !in m.nodes {
      at := 0;
    } else {
      VarOfNode(m.Tab(), m.ranks, v.e);
      var group := VarToGroup(m, m.nodes[v.e.node].varid);
      InBlock(m.ranks, l, m.nodes[v.e.node].varid, group);
      at := group + 1;
    }
    k := at;
    Insert(m, at);
    InsertGroup(l, at);
    WithSize(old(m.ranks), First(l.groups, at));
    R := Slots.CreateVar(m, n);
  }

  lemma EmptyLayout(l: Layout, t: Table, ranks: seq<nat>)
    requires Contiguous(l) && Inverse(ranks, l.space) && TableOk(t, ranks)
    ensures |ranks| == 0 ==> |l.groups| == 0 && t.g == map[]
  {
    forall n | n in t.g
      ensures t.g[n].varid < |ranks|
    {
      assert NodeOk(t.g, ranks, n);
    }
    assert |ranks| == 0 ==> t.g.Keys == {};
  }

  lemma VarOfNode(t: Table, ranks: seq<nat>, e: Edge)
    requires TableOk(t, ranks) && e.node in t.g
    ensures t.g[e.node].varid < |ranks|
  {
    assert NodeOk(t.g, ranks, e.node);
  }

  lemma WithSize(ranks: seq<nat>, r: nat)
    ensures |RanksWith(ranks, r)| == |ranks| + 1
    ensures RanksWith(ranks, r)[|ranks|] == r
  {
  }

  /** The variable of the next lower rank, if v is not on the first rank. */
  ghost predicate Preceding(l: Layout, ranks: seq<nat>, v: nat, k: nat)
    requires Inverse(ranks, l.space) && v < |ranks|
  {
    && Contiguous(l) && k <= |l.groups|
    && (if ranks[v] == 0 then k == 0
        else 0 < k && l.space[ranks[v] - 1] in Block(l, k - 1))
  }

  /** bdd_create_var_before: the new variable follows the whole group of the variable before v. */
  method CreateVarBefore(m: Manager, v: Pointer) returns (R: Edge, ghost k: nat)
    requires m.Valid() && Contiguous(LayoutOf(m)) && |m.ranks| < TERMID && (v.To? ==> In(m.nodes, v.e))
    modifies m
    ensures m.Valid() && Contiguous(LayoutOf(m)) && m.reorder == old(m.reorder)
    ensures Contiguous(old(LayoutOf(m))) && k <= old(|m.groups|)
    ensures LayoutOf(m) == WithGroup(old(LayoutOf(m)), k)
    ensures if v.To? && v.e.node in old(m.nodes)
            then old(m.nodes)[v.e.node].varid < old(|m.ranks|)
                 && Preceding(old(LayoutOf(m)), old(m.ranks), old(m.nodes)[v.e.node].varid, k)
            else Place(old(LayoutOf(m)), old(m.ranks), old(m.nodes), v, k)
    ensures Kept(old(m.Tab()), m.Tab()) && m.ext == old(m.ext) + multiset{R.node} && In(m.nodes, R)
    ensures Sem(m.den, R) == Shannon(old(|m.ranks|), True(), iset{})
    ensures |m.ranks| == old(|m.ranks|) + 1
  {
    hide TableOk, CacheOk, Kept, RanksWith, Block, WithGroup, Contiguous;
    ghost var s, l := m.Tab(), LayoutOf(m);
    if v.Void? || v.e.node !in m.nodes {
      R, k := CreateVarAfter(m, v);
      return;
    }
    VarOfNode(s, m.ranks, v.e);
    CoreKeys(s, m.ranks);
    var rank := m.ranks[m.nodes[v.e.node].varid];
    if rank == 0 {
      R, k := CreateVarAfter(m, To(ZERO));
      return;
    }
    rank := rank - 1;
    var before := Slots.CreateVar(m, m.space[rank]);
    ghost var s1, ranks := m.Tab(), m.ranks;
    LiteralVar(s1, m.ranks, before, m.space[rank]);
    R, k := CreateVarAfter(m, To(before));
    ghost var s2 := m.Tab();
    KeptTrans(s, s1, s2);
    FirstInside(l, k);
    InverseSize(ranks, l.space);
    InsertTable(s, ranks, First(l.groups, k));
    RestrictOps.FreeOne(m, before, s.ext, multiset{R.node});
    KeptAfterFree(s, s2, m.Tab(), m.ranks);
  }

  /** The literal of x is a node for x. */
  lemma LiteralVar(s: Table, ranks: seq<nat>, e: Edge, x: nat)
    requires TableOk(s, ranks) && In(s.g, e) && x < |ranks| && Sem(s.den, e) == Shannon(x, True(), iset{})
    ensures e.node in s.g && s.g[e.node].varid == x
  {
    NotTrue();
    ShannonDepends(x, True(), iset{});
    TerminalRank(s.g, ranks, e);
    if e.node !in s.g {
      SemIndep(s.g, ranks, s.den, e, x);
    } else {
      var y := s.g[e.node].varid;
      TopVariableMatters(s.g, ranks, s.den, e);
      if y != x {
        ShannonIndepOther(x, True(), iset{}, y);
      }
    }
  }

  /** The new variable is directly before v exactly when v is the first of its group. */
  lemma BeforeIsBefore(l: Layout, ranks: seq<nat>, v: nat, g: nat, k: nat)
    requires Inverse(ranks, l.space) && v < |ranks| && Preceding(l, ranks, v, k)
    requires g < |l.groups| && First(l.groups, g) <= ranks[v] <= l.groups[g].last
    ensures RanksWith(ranks, First(l.groups, k))[v] == First(l.groups, k) + 1 <==> ranks[v] == First(l.groups, g)
  {
    OneGroup(l, g);
    if ranks[v] > 0 {
      var u := l.space[ranks[v] - 1];
      assert ranks[u] == ranks[v] - 1;
      OneGroup(l, k - 1);
      BlockRanks(l, ranks, u, k - 1);
      if k - 1 < g {
        LastBefore(l, k - 1, g);
        LastBefore(l, k, g);
      } else if g < k - 1 {
        LastBefore(l, g, k - 1);
      }
    }
  }

  /** In a group of two variables, before the second one means behind both. */
  lemma NotBefore()
    ensures var l, ranks := Layout([0, 1], [Group(1, false)]), [0, 1];
      && Inverse(ranks, l.space) && Preceding(l, ranks, 1, 1)
      && RanksWith(ranks, First(l.groups, 1))[1] != First(l.groups, 1) + 1
      && SpaceWith(l.space, First(l.groups, 1)) == [0, 1, 2]
  {
    var l, ranks := Layout([0, 1], [Group(1, false)]), [0, 1];
    assert GroupOk(l, 0);
    assert Block(l, 0) == [0, 1];
    assert l.space[0] in Block(l, 0);
    BeforeIsBefore(l, ranks, 1, 0, 1);
  }

  lemma BlockRanks(l: Layout, ranks: seq<nat>, u: nat, g: nat)
    requires Inverse(ranks, l.space) && Contiguous(l) && g < |l.groups| && u in Block(l, g)
    ensures u < |ranks| && First(l.groups, g) <= ranks[u] <= l.groups[g].last
  {
    assert GroupOk(l, g);
    var i :| 0 <= i < |Block(l, g)| && Block(l, g)[i] == u;
    assert l.space[First(l.groups, g) + i] == u;
    assert ranks[l.space[First(l.groups, g) + i]] == First(l.groups, g) + i;
  }
}
