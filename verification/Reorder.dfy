/** The package's reordering operations. */
module Reorder {
  import opened Sets
  import opened Graph
  import opened RefCount
  import opened State
  import opened Tables
  import opened Swap
  import opened Size
  import opened Search
  import opened Turns
  import opened Sift
  import opened Groups

  predicate Deads(refs: Refs) {
    exists n | n in refs :: n != 0 && refs[n] == 0
  }

  lemma NoDeads(refs: Refs)
    requires !Deads(refs)
    ensures DeadSet(refs) == {}
  {
  }

  lemma NoneSwept(s: Table, ranks: seq<nat>)
    requires TableOk(s, ranks) && !Deads(s.refs)
    ensures Swept(s) == s
  {
    hide Denotes, Shape;
    CoreKeys(s, ranks);
    var t := Swept(s);
    forall n | n in s.g
      ensures Count(s.refs, n) > 0
    {
      assert n in s.refs;
    }
    assert t.g == s.g && t.refs == s.refs && t.den == s.den;
  }

  lemma SweptLive(s: Table)
    ensures |Swept(s).g| == |Live(s.g, s.refs)| && Swept(s).g.Keys == Live(s.g, s.refs)
  {
    assert Swept(s).g.Keys == Live(s.g, s.refs);
    assert |Swept(s).g| == |Swept(s).g.Keys|;
  }

  lemma SweptSize(s: Table)
    ensures |Swept(s).g| <= |s.g|
  {
    SubsetSize(Swept(s).g.Keys, s.g.Keys);
    assert |Swept(s).g| == |Swept(s).g.Keys| && |s.g| == |s.g.Keys|;
  }

  lemma SweptImproves(s: Table, ranks: seq<nat>)
    requires TableOk(s, ranks)
    ensures TableOk(Swept(s), ranks) && DeadSet(Swept(s).refs) == {} && Improved(s, Swept(s))
  {
    SweptOk(s, ranks);
    SweptSize(s);
    forall n | Root(s, n) && n in s.g
      ensures n in Swept(s).g
    {
      if s.ext[n] > 0 {
        HeldAlive(s, ranks, n);
      }
    }
  }

  /** Nothing dead may be around during a reordering. */
  method RemoveDead(m: Manager)
    requires m.Core() && m.sop == []
    modifies m`nodes, m`refs, m`den, m`ext, m`sop
    ensures m.Core() && m.sop == [] && DeadSet(m.refs) == {} && Improved(old(m.Tab()), m.Tab())
    ensures |m.nodes| <= old(|m.nodes|) && m.Tab() == Swept(old(m.Tab()))
  {
    hide TableOk, Inverse, Swept, Improved, DeadSet;
    ghost var s := m.Tab();
    if Deads(m.refs) {
      SweptSize(s);
      SweptImproves(s, m.ranks);
      GcAux(m);
    } else {
      NoDeads(m.refs);
      NoneSwept(s, m.ranks);
      ImprovedRefl(s, m.ranks);
    }
  }

  /** bdd_clear_computed_table */
  method ClearCache(m: Manager)
    requires m.Core() && m.sop == []
    modifies m`cache
    ensures m.Valid() && |m.cache| == old(|m.cache|)
  {
    hide TableOk, Inverse, Right;
    m.cache := seq(|m.cache|, _ => Empty);
    EmptyCacheOk(m.cache, m.Tab(), m.ranks, m.space);
  }

  lemma SameWidth(l: Layout, l': Layout)
    requires Contiguous(l) && l'.groups == l.groups && |l'.space| == |l.space|
    ensures Contiguous(l')
  {
    forall g | 0 <= g < |l'.groups|
      ensures GroupOk(l', g)
    {
      assert GroupOk(l, g);
    }
  }

  /** What the first part of bdd_dynamic_order does to group g: a sweep if it is orderable. */
  ghost predicate GroupOrdered(groups: seq<Group>, g: nat, a: Stage, b: Stage, w: Sweep<Stage, Turn>)
    requires g < |groups|
  {
    if groups[g].orderable then GroupSifted(a, b, First(groups, g), groups[g].last, w) else b == a
  }

  /** The first k groups, one after the other. */
  ghost predicate GroupsOrdered(groups: seq<Group>, k: nat, stages: seq<Stage>, sweeps: seq<Sweep<Stage, Turn>>) {
    && k <= |groups| && |sweeps| == k && |stages| == k + 1
    && (forall g {:trigger sweeps[g]} :: 0 <= g < k ==> GroupOrdered(groups, g, stages[g], stages[g + 1], sweeps[g]))
  }

  lemma OrderedNext(groups: seq<Group>, k: nat, stages: seq<Stage>, sweeps: seq<Sweep<Stage, Turn>>, b: Stage, w: Sweep<Stage, Turn>)
    requires k < |groups| && GroupsOrdered(groups, k, stages, sweeps) && GroupOrdered(groups, k, stages[k], b, w)
    ensures GroupsOrdered(groups, k + 1, stages + [b], sweeps + [w])
  {
    hide GroupOrdered;
    var stages', sweeps' := stages + [b], sweeps + [w];
    forall g | 0 <= g < k + 1
      ensures GroupOrdered(groups, g, stages'[g], stages'[g + 1], sweeps'[g])
    {
      if g < k {
        assert GroupOrdered(groups, g, stages[g], stages[g + 1], sweeps[g]);
      }
    }
  }

  /** Group g of l' has the variables it had in l, in the same order unless it may be reordered. */
  ghost predicate InnerAt(l: Layout, l': Layout, g: nat)
    requires Contiguous(l) && Contiguous(l') && g < |l.groups| == |l'.groups|
  {
    && (!l.groups[g].orderable ==> Block(l', g) == Block(l, g))
    && multiset(Block(l', g)) == multiset(Block(l, g))
  }

  /** The groups before the k-th may have been reordered inside, the others are as they were. */
  ghost predicate Inner(l: Layout, l': Layout, k: nat) {
    && Contiguous(l) && Contiguous(l') && l'.groups == l.groups && |l'.space| == |l.space|
    && (forall g {:trigger Block(l', g)} :: 0 <= g < |l.groups| ==>
          InnerAt(l, l', g) && (g >= k ==> Block(l', g) == Block(l, g)))
  }

  lemma InnerNone(l: Layout)
    requires Contiguous(l)
    ensures Inner(l, l, 0)
  {
    forall g | 0 <= g < |l.groups|
      ensures InnerAt(l, l, g)
    {
    }
  }

  lemma InnerNext(l: Layout, l1: Layout, l2: Layout, k: nat)
    requires Inner(l, l1, k) && k < |l.groups| && l2.groups == l1.groups
    requires SameOutside(l1.space, l2.space, First(l1.groups, k), l1.groups[k].last)
    requires var s, e := First(l1.groups, k), l1.groups[k].last + 1;
      s <= e <= |l1.space| && e <= |l2.space| && multiset(l2.space[s..e]) == multiset(l1.space[s..e])
    requires !l.groups[k].orderable ==> l2.space == l1.space
    ensures Inner(l, l2, k + 1)
  {
    hide Contiguous, Block, SameOutside, First;
    SameLength(l1.space, l2.space, First(l1.groups, k), l1.groups[k].last);
    SameWidth(l1, l2);
    OwnBlock(l1, l2, k);
    forall g | 0 <= g < |l.groups|
      ensures InnerAt(l, l2, g) && (g >= k + 1 ==> Block(l2, g) == Block(l, g))
    {
      assert InnerAt(l, l1, g) by { assert Block(l1, g) == Block(l1, g); }
      OutsideBlock(l1, l2, k, g);
    }
  }

  lemma OwnBlock(l: Layout, l': Layout, k: nat)
    requires Contiguous(l) && Contiguous(l') && l'.groups == l.groups && k < |l.groups|
    requires var s, e := First(l.groups, k), l.groups[k].last + 1;
      s <= e <= |l.space| && e <= |l'.space| && multiset(l'.space[s..e]) == multiset(l.space[s..e])
    ensures multiset(Block(l', k)) == multiset(Block(l, k))
    ensures l'.space == l.space ==> Block(l', k) == Block(l, k)
  {
  }

  /** A group other than the k-th is outside. */
  lemma OutsideBlock(l: Layout, l': Layout, k: nat, g: nat)
    requires Contiguous(l) && Contiguous(l') && l'.groups == l.groups && k < |l.groups| && g < |l.groups|
    requires SameOutside(l.space, l'.space, First(l.groups, k), l.groups[k].last)
    ensures g != k ==> Block(l', g) == Block(l, g)
  {
    OneGroup(l, g);
    if k + 1 < |l.groups| {
      BlockSide(l, k, g);
      OneGroup(l, k + 1);
    }
    if g < k {
      BlockSide(l, k - 1, g);
      OneGroup(l, k - 1);
    }
    hide Contiguous;
    if g != k {
      assert l.groups[g].last < First(l.groups, k) || First(l.groups, g) > l.groups[k].last;
      assert Block(l', g) == Block(l, g);
    }
  }

  /** The first part of bdd_dynamic_order: reorder within the groups that allow it. */
  method OrderWithin(m: Manager, ghost t: Table)
    returns (gained: int, ghost stages: seq<Stage>, ghost sweeps: seq<Sweep<Stage, Turn>>)
    requires m.Core() && DeadSet(m.refs) == {} && Contiguous(LayoutOf(m)) && Improved(t, m.Tab())
    modifies m`nodes, m`refs, m`den, m`ext, m`ranks, m`space
    ensures m.Core() && DeadSet(m.refs) == {} && Inner(old(LayoutOf(m)), LayoutOf(m), |m.groups|) && Improved(t, m.Tab())
    ensures gained == old(|m.nodes|) - |m.nodes|
    ensures GroupsOrdered(m.groups, |m.groups|, stages, sweeps)
    ensures stages[0] == old(StageOf(m)) && stages[|m.groups|] == StageOf(m)
  {
    hide TableOk, Inverse, DeadSet, Contiguous, Improved, Inner, GroupOrdered;
    gained := 0;
    stages, sweeps := [StageOf(m)], [];
    ghost var l := LayoutOf(m);
    InnerNone(l);
    for g := 0 to |m.groups|
      invariant m.Core() && DeadSet(m.refs) == {} && Inner(l, LayoutOf(m), g) && Improved(t, m.Tab())
      invariant gained == old(|m.nodes|) - |m.nodes| && GroupsOrdered(m.groups, g, stages, sweeps)
      invariant stages[0] == old(StageOf(m)) && stages[g] == StageOf(m)
    {
      ghost var w := Sweep([], 0, [], []);
      if m.groups[g].orderable {
        var more;
        more, w := OrderOne(m, g, t, l);
        gained := gained + more;
      } else {
        InnerSkip(l, LayoutOf(m), g);
        Unordered(m.groups, g, StageOf(m), w);
      }
      OrderedNext(m.groups, g, stages, sweeps, StageOf(m), w);
      stages, sweeps := stages + [StageOf(m)], sweeps + [w];
    }
  }

  lemma Unordered(groups: seq<Group>, g: nat, a: Stage, w: Sweep<Stage, Turn>)
    requires g < |groups| && !groups[g].orderable
    ensures GroupOrdered(groups, g, a, a, w)
  {
  }

  lemma InnerSkip(l: Layout, l': Layout, g: nat)
    requires Inner(l, l', g)
    ensures Inner(l, l', g + 1)
  {
    hide Block;
    forall h | 0 <= h < |l.groups|
      ensures InnerAt(l, l', h) && (h >= g + 1 ==> Block(l', h) == Block(l, h))
    {
      assert Block(l', h) == Block(l', h);
    }
  }

  method OrderOne(m: Manager, g: nat, ghost t: Table, ghost l: Layout) returns (gained: int, ghost w: Sweep<Stage, Turn>)
    requires m.Core() && DeadSet(m.refs) == {} && Inner(l, LayoutOf(m), g) && Improved(t, m.Tab())
    requires g < |m.groups| && m.groups[g].orderable
    modifies m`nodes, m`refs, m`den, m`ext, m`ranks, m`space
    ensures m.Core() && DeadSet(m.refs) == {} && Inner(l, LayoutOf(m), g + 1) && Improved(t, m.Tab())
    ensures gained == old(|m.nodes|) - |m.nodes| && GroupOrdered(m.groups, g, old(StageOf(m)), StageOf(m), w)
  {
    hide TableOk, Inverse, DeadSet, Contiguous, Improved, GroupSifted;
    ghost var a, k, u := StageOf(m), LayoutOf(m), m.Tab();
    OneGroup(k, g);
    gained, w := OrderGroup(m, First(m.groups, g), m.groups[g].last);
    GroupSiftedWithin(a, StageOf(m), First(m.groups, g), m.groups[g].last, w);
    InnerNext(l, k, LayoutOf(m), g);
    ImprovedTrans(t, u, m.Tab());
  }

  /** Group g of l is a group of l' with the same flag, and, if it may not be reordered, with its
      variables in the same order. */
  ghost predicate GroupKept(l: Layout, l': Layout, g: nat)
    requires Contiguous(l) && Contiguous(l') && g < |l.groups|
  {
    exists h {:trigger Block(l', h)} :: 0 <= h < |l'.groups| && l'.groups[h].orderable == l.groups[g].orderable
      && (!l.groups[g].orderable ==> Block(l', h) == Block(l, g)) && multiset(Block(l', h)) == multiset(Block(l, g))
  }

  /** All groups are kept. */
  ghost predicate Regrouped(l: Layout, l': Layout) {
    && Contiguous(l) && Contiguous(l') && |l'.groups| == |l.groups| && |l'.space| == |l.space|
    && (forall g {:trigger Block(l, g)} :: 0 <= g < |l.groups| ==> GroupKept(l, l', g))
  }

  lemma RegroupedOk(l: Layout, l1: Layout, l2: Layout)
    requires Inner(l, l1, |l.groups|) && SameBlocks(l1, l2) && |l2.space| == |l1.space|
    ensures Regrouped(l, l2)
  {
    hide Contiguous, Block;
    forall g | 0 <= g < |l.groups|
      ensures GroupKept(l, l2, g)
    {
      assert InnerAt(l, l1, g) by { assert Block(l1, g) == Block(l1, g); }
      assert HasSubset(l2, SubsetAt(l1, g));
      var h :| 0 <= h < |l2.groups| && SubsetAt(l2, h) == SubsetAt(l1, g);
      assert Block(l2, h) == Block(l1, g);
    }
  }

  lemma RegroupedSame(l: Layout)
    requires Contiguous(l)
    ensures Regrouped(l, l)
  {
    hide Contiguous, Block;
    forall g | 0 <= g < |l.groups|
      ensures GroupKept(l, l, g)
    {
      assert Block(l, g) == Block(l, g);
    }
  }

  /** What a reordering did: the stages between the groups ordered inside, and the sweep over the groups. */
  datatype Reordering = Reordering(stages: seq<Stage>, sweeps: seq<Sweep<Stage, Turn>>, across: Sweep<GroupStage, Turn>)

  /** From stage a to stage b: every orderable group is swept in turn, then the groups themselves. */
  ghost predicate ReorderedBy(a: GroupStage, b: GroupStage, r: Reordering) {
    var k := |a.l.groups|;
    && GroupsOrdered(a.l.groups, k, r.stages, r.sweeps) && r.stages[0] == Stage(a.t, a.l.space)
    && GroupsSifted(GroupStage(r.stages[k].t, Layout(r.stages[k].space, a.l.groups)), b, r.across)
  }

  /** Between two improvements without newly frozen nodes, the table cannot have grown. */
  lemma GainNotNegative(s: Table, t: Table, u: Table)
    requires Improved(s, t) && Improved(t, u)
    ensures Improved(s, u) && (Frozen(u.refs) == Frozen(s.refs) ==> |u.g| <= |t.g|)
  {
    ImprovedTrans(s, t, u);
  }

  /** bdd_dynamic_order: the functions of all roots are what they were, every group is kept, inside
      which only orderable ones are reordered, and unless a node got frozen the table has not grown.
      With reordering on, dead nodes go first, then every orderable group is swept inside, then the
      groups themselves. */
  method DynamicOrder(m: Manager) returns (gained: int, ghost r: Reordering)
    requires m.Valid() && Contiguous(LayoutOf(m))
    modifies m`nodes, m`refs, m`den, m`ext, m`ranks, m`space, m`groups, m`sop, m`cache
    ensures m.Valid() && Contiguous(LayoutOf(m)) && Improved(old(m.Tab()), m.Tab())
    ensures Regrouped(old(LayoutOf(m)), LayoutOf(m)) && |m.ranks| == old(|m.ranks|)
    ensures if m.reorder && old(m.groups) != [] then
              && ReorderedBy(GroupStage(Swept(old(m.Tab())), old(LayoutOf(m))), GroupStageOf(m), r)
              && gained == |Live(old(m.nodes), old(m.refs))| - |m.nodes|
            else m.Tab() == old(m.Tab()) && LayoutOf(m) == old(LayoutOf(m)) && gained == 0
    ensures gained <= old(|m.nodes|) - |m.nodes|
    ensures Spacious(old(m.Tab())) || Frozen(m.refs) == old(Frozen(m.refs)) ==> gained >= 0
    ensures Spacious(old(m.Tab())) ==> FrozenSame(old(m.refs), m.refs) && |m.nodes| <= old(|m.nodes|)
  {
    hide TableOk, Inverse, DeadSet, CacheOk, Improved, Contiguous, SameBlocks, Spacious, Inner, Regrouped, Swept, Live;
    hide GroupsOrdered, GroupsSifted;
    ghost var t, l := m.Tab(), LayoutOf(m);
    ImprovedRefl(t, m.ranks);
    r := Reordering([], [], Sweep([], 0, [], []));
    RegroupedSame(l);
    if !m.reorder || m.groups == [] {
      return 0, r;
    }
    InverseSize(m.ranks, m.space);
    RemoveDead(m);
    SweptLive(t);
    ghost var u := m.Tab();
    ghost var stages, sweeps, w;
    ImprovedRefl(u, m.ranks);
    var within;
    within, stages, sweeps := OrderWithin(m, u);
    ghost var u', l1 := m.Tab(), LayoutOf(m);
    InnerFacts(l, l1, |l.groups|);
    var across;
    across, w := OrderGroups(m);
    r := Reordering(stages, sweeps, w);
    RegroupedOk(l, l1, LayoutOf(m));
    RegroupedFacts(l, LayoutOf(m));
    ImprovedTrans(u, u', m.Tab());
    GainNotNegative(t, u, m.Tab());
    ClearCache(m);
    InverseSize(m.ranks, m.space);
    gained := within + across;
    if Spacious(t) {
      ImprovedGains(t, m.Tab());
    }
  }

  lemma InnerFacts(l: Layout, l': Layout, k: nat)
    requires Inner(l, l', k)
    ensures Contiguous(l') && l'.groups == l.groups && |l'.space| == |l.space|
  {
  }

  lemma RegroupedFacts(l: Layout, l': Layout)
    requires Regrouped(l, l')
    ensures Contiguous(l')
  {
  }

  lemma RegroupedTrans(l: Layout, l1: Layout, l2: Layout)
    requires Regrouped(l, l1) && Regrouped(l1, l2)
    ensures Regrouped(l, l2)
  {
    hide Contiguous, Block;
    forall g | 0 <= g < |l.groups|
      ensures GroupKept(l, l2, g)
    {
      assert GroupKept(l, l1, g) by { assert Block(l, g) == Block(l, g); }
      var h :| 0 <= h < |l1.groups| && l1.groups[h].orderable == l.groups[g].orderable
        && (!l.groups[g].orderable ==> Block(l1, h) == Block(l, g)) && multiset(Block(l1, h)) == multiset(Block(l, g));
      assert GroupKept(l1, l2, h) by { assert Block(l1, h) == Block(l1, h); }
    }
  }

  /** bdd_dynamic_order_exhaustive: reorder as long as something is gained, which comes to an end because
      every gain is made of nodes. */
  method OrderExhaustively(m: Manager)
    requires m.Valid() && Contiguous(LayoutOf(m))
    modifies m`nodes, m`refs, m`den, m`ext, m`ranks, m`space, m`groups, m`sop, m`cache
    ensures m.Valid() && Contiguous(LayoutOf(m)) && Improved(old(m.Tab()), m.Tab())
    ensures Regrouped(old(LayoutOf(m)), LayoutOf(m)) && |m.ranks| == old(|m.ranks|)
    ensures !m.reorder ==> m.Tab() == old(m.Tab()) && LayoutOf(m) == old(LayoutOf(m))
  {
    hide TableOk, Inverse, CacheOk, Improved, Contiguous, Regrouped, ReorderedBy;
    ghost var t, l := m.Tab(), LayoutOf(m);
    ImprovedRefl(t, m.ranks);
    RegroupedSame(l);
    if !m.reorder {
      return;
    }
    var gain := 1;
    while gain > 0
      invariant m.Valid() && Contiguous(LayoutOf(m)) && Improved(t, m.Tab()) && Regrouped(l, LayoutOf(m))
      invariant |m.ranks| == old(|m.ranks|)
      decreases if gain > 0 then |m.nodes| + 1 else 0
    {
      ghost var u, k := m.Tab(), LayoutOf(m);
      ghost var r;
      gain, r := DynamicOrder(m);
      ImprovedTrans(t, u, m.Tab());
      RegroupedTrans(l, k, LayoutOf(m));
    }
  }

  /** Every variable in a group by itself. */
  function Singles(n: nat): seq<Group> {
    seq(n, g requires 0 <= g < n => Group(g, false))
  }

  lemma SinglesOk(space: seq<nat>, g: nat)
    ensures Contiguous(Layout(space, Singles(|space|)))
    ensures g < |space| ==> Block(Layout(space, Singles(|space|)), g) == [space[g]] && !Singles(|space|)[g].orderable
  {
    var l := Layout(space, Singles(|space|));
    forall k | 0 <= k < |l.groups|
      ensures GroupOk(l, k)
    {
    }
  }

  /** bdd_undo_var_groups */
  method UndoGroups(m: Manager)
    requires m.Valid()
    modifies m`groups
    ensures m.Valid() && LayoutOf(m) == Layout(old(m.space), Singles(|m.space|)) && Contiguous(LayoutOf(m))
  {
    hide TableOk, CacheOk, Inverse, Contiguous;
    m.groups := [];
    for g := 0 to |m.space|
      invariant m.Valid() && m.groups == Singles(g)
    {
      m.groups := m.groups + [Group(g, false)];
    }
    SinglesOk(m.space, 0);
  }

  /** The rank right behind rank t, once the variable of rank r has left its place; the first for t
      itself. */
  function Goal(r: nat, t: nat): nat {
    if r == t then 0 else if r < t then t else t + 1
  }

  /** The variable of rank r has moved to rank r', some way towards its goal. */
  predicate Going(r: nat, t: nat, r': nat) {
    if r < Goal(r, t) then r < r' <= Goal(r, t) else if r > Goal(r, t) then Goal(r, t) <= r' < r else r' == r
  }

  /** bdd_reorder_var: on success the variable directly follows its target, or is first if it is its
      own target. It fails exactly if reordering is off, or the table has grown by more than 5 per cent
      of the live nodes; then it has been moved towards its target. Nothing but its rank is chosen anew. */
  method ReorderVar(m: Manager, varId: nat, targetId: nat) returns (success: bool)
    requires m.Valid() && varId < |m.ranks| && targetId < |m.ranks|
    modifies m`nodes, m`refs, m`den, m`ext, m`ranks, m`space, m`sop, m`cache
    ensures m.Valid() && RootsKept(old(m.Tab()), m.Tab()) && |m.ranks| == old(|m.ranks|)
    ensures old(m.ranks[varId]) < old(|m.space|) && m.ranks[varId] < |m.space|
    ensures m.space == Moved(old(m.space), old(m.ranks[varId]), m.ranks[varId])
    ensures var r, t := old(m.ranks[varId]), old(m.ranks[targetId]);
      && (success ==> if varId == targetId then m.ranks[varId] == 0 else m.ranks[varId] == m.ranks[targetId] + 1)
      && (!m.reorder || r == t + 1 ==>
            success == (r == t + 1) && m.Tab() == old(m.Tab()) && m.space == old(m.space) && m.cache == old(m.cache))
      && (m.reorder && r != t + 1 ==>
            DeadSet(m.refs) == {} && (success <==> 20 * |m.nodes| <= 21 * |Live(old(m.nodes), old(m.refs))|))
      && (m.reorder ==> Going(r, t, m.ranks[varId]) && (success ==> m.ranks[varId] == Goal(r, t)))
  {
    hide TableOk, Inverse, DeadSet, CacheOk, RootsKept, Moved, Live, Swept;
    ghost var t, space := m.Tab(), m.space;
    var rank, target := m.ranks[varId], m.ranks[targetId];
    RanksBound(m.ranks, m.space, varId, targetId);
    KeysOf(t, m.ranks);
    RootsRefl(t);
    MovedSelf(space, rank);
    if rank == target + 1 {
      return true;
    }
    if !m.reorder {
      return false;
    }
    RemoveDead(m);
    SweptLive(t);
    ImprovedKeeps(t, m.Tab());
    ghost var r, ranks := rank, m.ranks;
    var limit := |m.nodes|;
    if rank < target {
      rank, success := MoveDownTo(m, rank, target, limit, t, space);
    } else {
      rank, success := MoveUpTo(m, rank, if rank == target then 0 else target + 1, limit, t, space);
    }
    HoldsEnd(m, t, Moved(space, r, rank));
    MovedRanks(ranks, space, r, rank, m.ranks, m.space, varId, targetId);
    ClearCache(m);
  }

  /** Down to the target, unless the table grows too much on the way. */
  method MoveDownTo(m: Manager, r: nat, target: nat, limit: nat, ghost t: Table, ghost space: seq<nat>)
    returns (rank: nat, success: bool)
    requires r < target < |space| && m.sop == [] && Holds(m, t, Moved(space, r, r))
    modifies m`nodes, m`refs, m`den, m`ext, m`ranks, m`space
    ensures r < rank <= target && m.sop == [] && Holds(m, t, Moved(space, r, rank))
    ensures success <==> 20 * |m.nodes| <= 21 * limit
    ensures success ==> rank == target
  {
    hide Holds, Moved;
    rank, success := r, true;
    while rank < target
      invariant r <= rank <= target && m.sop == [] && Holds(m, t, Moved(space, r, rank))
      invariant success && (rank > r ==> 20 * |m.nodes| <= 21 * limit)
    {
      SwapOne(m, rank, t, space, r);
      rank := rank + 1;
      if TooLarge(|m.nodes|, limit) {
        success := false;
        break;
      }
    }
  }

  /** Up to the target, unless the table grows too much on the way. */
  method MoveUpTo(m: Manager, r: nat, top: nat, limit: nat, ghost t: Table, ghost space: seq<nat>)
    returns (rank: nat, success: bool)
    requires top <= r < |space| && m.sop == [] && Holds(m, t, Moved(space, r, r)) && |m.nodes| <= limit
    modifies m`nodes, m`refs, m`den, m`ext, m`ranks, m`space
    ensures top <= rank <= r && m.sop == [] && Holds(m, t, Moved(space, r, rank))
    ensures success <==> 20 * |m.nodes| <= 21 * limit
    ensures if success then rank == top else rank < r
  {
    hide Holds, Moved;
    rank, success := r, true;
    while rank > top
      invariant top <= rank <= r && m.sop == [] && Holds(m, t, Moved(space, r, rank))
      invariant success && 20 * |m.nodes| <= 21 * limit
    {
      rank := rank - 1;
      SwapOneUp(m, rank, t, space, r);
      if TooLarge(|m.nodes|, limit) {
        success := false;
        break;
      }
    }
  }

  lemma RanksBound(ranks: seq<nat>, space: seq<nat>, v: nat, w: nat)
    requires Inverse(ranks, space) && v < |ranks| && w < |ranks|
    ensures ranks[v] < |space| && ranks[w] < |space| && (ranks[v] == ranks[w] ==> v == w)
  {
    assert space[ranks[v]] == v && space[ranks[w]] == w;
  }

  lemma KeysOf(t: Table, ranks: seq<nat>)
    requires TableOk(t, ranks)
    ensures t.den.Keys == t.g.Keys
  {
  }

  lemma ImprovedKeeps(s: Table, t: Table)
    requires Improved(s, t)
    ensures RootsKept(s, t)
  {
  }

  /** Where a moved variable and any other end up. */
  lemma MovedRanks(ranks: seq<nat>, space: seq<nat>, r: nat, r': nat, ranks': seq<nat>, space': seq<nat>, v: nat, w: nat)
    requires Inverse(ranks, space) && Inverse(ranks', space') && r < |space| && r' < |space|
    requires space' == Moved(space, r, r') && v < |ranks| && w < |ranks| && ranks[v] == r
    ensures |ranks'| == |ranks| && ranks'[v] == r'
    ensures w != v && r < ranks[w] <= r' ==> ranks'[w] == ranks[w] - 1
    ensures w != v && r' <= ranks[w] < r ==> ranks'[w] == ranks[w] + 1
    ensures w != v && (ranks[w] < Min(r, r') || (ranks[w] > r && ranks[w] > r')) ==> ranks'[w] == ranks[w]
  {
    assert space[r] == v && space'[r'] == v;
    assert ranks'[space'[r']] == r';
    var q := ranks[w];
    assert space[q] == w;
    if q != r {
      var q' := if r < q <= r' then q - 1 else if r' <= q < r then q + 1 else q;
      assert Origin(r, r', q') == q;
      assert space'[q'] == w;
      assert ranks'[space'[q']] == q';
    }
  }

  method SwapOneUp(m: Manager, rank: nat, ghost t: Table, ghost space: seq<nat>, ghost r: nat)
    requires r < |space| && rank + 1 < |space| && Holds(m, t, Moved(space, r, rank + 1))
    modifies m`nodes, m`refs, m`den, m`ext, m`ranks, m`space
    ensures Holds(m, t, Moved(space, r, rank))
  {
    hide TableOk, Swapped, RootsKept, DeadSet, Inverse, Moved;
    ghost var u, space1, ranks1 := m.Tab(), m.space, m.ranks;
    SwapLevels(m, rank);
    SwapKeepsRoots(u, ranks1, m.Tab(), space1[rank], space1[rank + 1]);
    SwappedClean(u, m.Tab(), space1[rank], space1[rank + 1]);
    RootsTrans(t, u, m.Tab());
    MovedStep(space, r, rank);
  }

  /** Moving a group past others keeps every group intact. */
  lemma {:induction false} ShiftedBlocks(l: Layout, r: nat, p: nat, k: nat)
    requires Contiguous(l) && r < |l.groups| && p < |l.groups| && k < |l.groups|
    ensures Block(Shifted(l, r, p), k) == Block(l, Origin(r, p, k))
    ensures Shifted(l, r, p).groups[k].orderable == l.groups[Origin(r, p, k)].orderable
    decreases if p < r then r - p else p - r
  {
    hide Contiguous, Block, SwapGroups;
    if r < p {
      SwapGroupsBlocks(Shifted(l, r, p - 1), p - 1, k);
      ShiftedBlocks(l, r, p - 1, Partner(p - 1, k));
    } else if p < r {
      SwapGroupsBlocks(Shifted(l, r, p + 1), p, k);
      ShiftedBlocks(l, r, p + 1, Partner(p, k));
    }
  }

  /** Groups g and g + 1 made one. */
  function Fused(l: Layout, g: nat): Layout
    requires g + 1 < |l.groups|
  {
    var both := Group(l.groups[g + 1].last, l.groups[g].orderable && l.groups[g + 1].orderable);
    l.(groups := l.groups[..g] + [both] + l.groups[g + 2..])
  }

  lemma FusedOk(l: Layout, g: nat)
    requires Contiguous(l) && g + 1 < |l.groups|
    ensures Contiguous(Fused(l, g))
  {
    var l' := Fused(l, g);
    assert GroupOk(l, g) && GroupOk(l, g + 1);
    forall k | 0 <= k < |l'.groups|
      ensures GroupOk(l', k)
    {
      assert GroupOk(l, if k <= g then k else k + 1);
    }
  }

  lemma FusedBlocks(l: Layout, g: nat, k: nat)
    requires Contiguous(l) && g + 1 < |l.groups| && k < |l.groups| - 1
    ensures Contiguous(Fused(l, g))
    ensures Block(Fused(l, g), k)
         == if k < g then Block(l, k) else if k == g then Block(l, g) + Block(l, g + 1) else Block(l, k + 1)
  {
    hide Contiguous;
    FusedOk(l, g);
    FusedBounds(l, g, k);
  }

  lemma FusedFlags(l: Layout, g: nat, k: nat)
    requires g + 1 < |l.groups| && k < |l.groups| - 1
    ensures Fused(l, g).groups[k].orderable
        <==> if k < g then l.groups[k].orderable
             else l.groups[k + 1].orderable && (k == g ==> l.groups[g].orderable)
  {
  }

  lemma FusedBounds(l: Layout, g: nat, k: nat)
    requires Contiguous(l) && g + 1 < |l.groups| && k < |l.groups| - 1
    ensures var gs := Fused(l, g).groups;
      && First(gs, k) == First(l.groups, if k <= g then k else k + 1)
      && gs[k].last == l.groups[if k < g then k else k + 1].last
    ensures GroupOk(l, g) && GroupOk(l, g + 1) && First(l.groups, g + 1) == l.groups[g].last + 1
    ensures GroupOk(l, if k <= g then k else k + 1)
  {
  }

  /** Group k of l' when group r of l has moved next to the other of a and b and become one with it. */
  ghost predicate MergedAt(l: Layout, l': Layout, a: nat, b: nat, r: nat, k: nat)
    requires Contiguous(l) && Contiguous(l') && a < b < |l.groups| == |l'.groups| + 1 && k < |l'.groups|
  {
    var j := if k < r then k else k + 1;
    if j == a + b - r then
      && Block(l', k) == Block(l, a) + Block(l, b)
      && (l'.groups[k].orderable <==> l.groups[a].orderable && l.groups[b].orderable)
    else Block(l', k) == Block(l, j) && l'.groups[k].orderable == l.groups[j].orderable
  }

  ghost predicate MergedBy(l: Layout, l': Layout, a: nat, b: nat, r: nat) {
    && Contiguous(l) && Contiguous(l') && a < b < |l.groups| == |l'.groups| + 1 && |l'.space| == |l.space| && (r == a || r == b)
    && (forall k {:trigger MergedAt(l, l', a, b, r, k)} :: 0 <= k < |l'.groups| ==> MergedAt(l, l', a, b, r, k))
  }

  /** Groups a and b have become one in the place of the larger, a's variables first, and it may be
      reordered inside if both could; every other group is as it was, and they are in their old order. */
  ghost predicate Merged(l: Layout, l': Layout, a: nat, b: nat) {
    Contiguous(l) && a < b < |l.groups| && MergedBy(l, l', a, b, Smaller(l, a, b))
  }

  /** The group that moves. */
  function Smaller(l: Layout, a: nat, b: nat): nat
    requires Contiguous(l) && a < b < |l.groups|
  {
    if |Block(l, a)| < |Block(l, b)| then a else b
  }

  /** Moving group r next to the other, to position p, and fusing them. */
  lemma MergedOk(l: Layout, a: nat, b: nat, r: nat, p: nat)
    requires Contiguous(l) && a < b < |l.groups|
    requires (r == a && p == b - 1) || (r == b && p == a + 1)
    ensures var q := if r == a then p else a;
      Contiguous(Fused(Shifted(l, r, p), q)) && MergedBy(l, Fused(Shifted(l, r, p), q), a, b, r)
  {
    hide Contiguous, Block, Shifted;
    var q := if r == a then p else a;
    var s := Shifted(l, r, p);
    FusedOk(s, q);
    var l' := Fused(s, q);
    forall k | 0 <= k < |l'.groups|
      ensures MergedAt(l, l', a, b, r, k)
    {
      FusedBlocks(s, q, k);
      FusedFlags(s, q, k);
      ShiftedBlocks(l, r, p, k);
      ShiftedBlocks(l, r, p, k + 1);
    }
  }

  /** Of neighbours either may be said to move. */
  lemma MergedNext(l: Layout, a: nat)
    requires Contiguous(l) && a + 1 < |l.groups|
    ensures Contiguous(Fused(l, a)) && Merged(l, Fused(l, a), a, a + 1)
  {
    hide Contiguous, Fused, Block, MergedBy;
    ShiftedNone(l, a);
    ShiftedNone(l, a + 1);
    MergedOk(l, a, a + 1, a, a);
    MergedOk(l, a, a + 1, a + 1, a + 1);
  }

  /** bdd_var_id_to_group */
  method VarToGroup(m: Manager, id: int) returns (g: int)
    requires m.Core() && Contiguous(LayoutOf(m))
    ensures if 0 <= id < |m.ranks| then 0 <= g < |m.groups| && First(m.groups, g) <= m.ranks[id] <= m.groups[g].last
            else g == -1
  {
    hide TableOk;
    if id < 0 || |m.ranks| <= id {
      return -1;
    }
    var rank := m.ranks[id];
    g := 0;
    while g < |m.groups|
      invariant 0 <= g <= |m.groups| && First(m.groups, g) <= rank
    {
      if rank <= m.groups[g].last {
        return;
      }
      g := g + 1;
    }
  }

  /** Group g with another flag. */
  function Flagged(l: Layout, g: nat, orderable: bool): Layout
    requires g < |l.groups|
  {
    l.(groups := l.groups[g := l.groups[g].(orderable := orderable)])
  }

  /** Only the flag changes: every group has the variables it had. */
  lemma FlaggedBlocks(l: Layout, g: nat, orderable: bool, k: nat)
    requires Contiguous(l) && g < |l.groups| && k < |l.groups|
    ensures Contiguous(Flagged(l, g, orderable)) && Block(Flagged(l, g, orderable), k) == Block(l, k)
    ensures Flagged(l, g, orderable).groups[k].orderable == if k == g then orderable else l.groups[k].orderable
  {
    var l' := Flagged(l, g, orderable);
    forall i | 0 <= i < |l'.groups|
      ensures GroupOk(l', i)
    {
      assert GroupOk(l, i);
    }
  }

  /** bdd_set_var_group_reorderable and, with !on, bdd_reset_var_group_reorderable: the group of the
      variable may be reordered inside if it has more than one variable; an unknown id is ignored. */
  method SetReorderable(m: Manager, id: int, on: bool) returns (ghost g: nat)
    requires m.Valid() && Contiguous(LayoutOf(m))
    modifies m`groups
    ensures m.Valid() && Contiguous(LayoutOf(m))
    ensures 0 <= id < |m.ranks| ==>
      && g < old(|m.groups|) && id in old(Block(LayoutOf(m), g))
      && LayoutOf(m) == Flagged(old(LayoutOf(m)), g, on && |old(Block(LayoutOf(m), g))| > 1)
    ensures !(0 <= id < |m.ranks|) ==> LayoutOf(m) == old(LayoutOf(m))
  {
    hide TableOk, CacheOk, Inverse, Contiguous;
    ghost var l := LayoutOf(m);
    g := 0;
    var h := VarToGroup(m, id);
    if h >= 0 {
      g := h;
      InBlock(m.ranks, l, id, h);
      OneGroup(l, h);
      FlaggedBlocks(l, h, on && GroupSize(m, h) > 1, h);
      m.groups := m.groups[h := m.groups[h].(orderable := on && GroupSize(m, h) > 1)];
    }
  }

  /** Clean, laid out as l, and with the roots of t. */
  ghost predicate Laid(m: Manager, t: Table, l: Layout)
    reads m
  {
    && m.Core() && m.sop == [] && DeadSet(m.refs) == {} && RootsKept(t, m.Tab())
    && Contiguous(l) && LayoutOf(m) == l
  }

  method SwapLaid(m: Manager, g: nat, ghost t: Table, ghost l: Layout)
    requires Laid(m, t, l) && g + 1 < |l.groups|
    modifies m`nodes, m`refs, m`den, m`ext, m`ranks, m`space, m`groups
    ensures Laid(m, t, SwapGroups(l, g))
  {
    hide TableOk, RootsKept, DeadSet, Inverse, Contiguous, SwapGroups;
    ghost var u := m.Tab();
    SwapGroupDown(m, g);
    RootsTrans(t, u, m.Tab());
  }

  /** The swaps of bdd_merge_var_groups: the smaller group goes next to the larger one. */
  method BringTogether(m: Manager, g1: nat, g2: nat, ghost t: Table, ghost l: Layout)
    returns (h: nat, ghost r: nat, ghost p: nat)
    requires Laid(m, t, l) && g1 + 1 < g2 < |l.groups|
    modifies m`nodes, m`refs, m`den, m`ext, m`ranks, m`space, m`groups
    ensures (r == g1 && p == g2 - 1) || (r == g2 && p == g1 + 1)
    ensures Contiguous(l) && r == Smaller(l, g1, g2) && Laid(m, t, Shifted(l, r, p)) && h == if r == g1 then p else g1
  {
    hide Laid, Shifted, Contiguous;
    LaidFacts(m, t, l);
    var size1, size2 := GroupSize(m, g1), GroupSize(m, g2);
    OneGroup(l, g1);
    OneGroup(l, g2);
    if size1 < size2 {
      r, p, h := g1, g1, g1;
      ShiftedNone(l, g1);
      while h < g2 - 1
        invariant g1 <= h <= g2 - 1 && p == h && Laid(m, t, Shifted(l, r, p))
      {
        SwapLaid(m, h, t, Shifted(l, r, h));
        ShiftedStep(l, r, h);
        h, p := h + 1, p + 1;
      }
    } else {
      r, p := g2, g2;
      ShiftedNone(l, g2);
      var k := g2;
      while k > g1 + 1
        invariant g1 + 1 <= k <= g2 && p == k && Laid(m, t, Shifted(l, r, p))
      {
        SwapLaid(m, k - 1, t, Shifted(l, r, k));
        ShiftedStep(l, r, k - 1);
        k, p := k - 1, p - 1;
      }
      h := g1;
    }
  }

  lemma ShiftedNone(l: Layout, r: nat)
    requires Contiguous(l) && r < |l.groups|
    ensures Shifted(l, r, r) == l
  {
  }

  lemma LaidFacts(m: Manager, t: Table, l: Layout)
    requires Laid(m, t, l)
    ensures m.Core() && m.sop == [] && Contiguous(l) && LayoutOf(m) == l && RootsKept(t, m.Tab())
  {
  }

  function GroupSize(m: Manager, g: nat): int
    reads m
    requires g < |m.groups|
  {
    m.groups[g].last - First(m.groups, g) + 1
  }

  /** Make groups g and g + 1 one. */
  method Fuse(m: Manager, g: nat)
    requires g + 1 < |m.groups|
    modifies m`groups
    ensures LayoutOf(m) == Fused(old(LayoutOf(m)), g)
  {
    var a, b := m.groups[g], m.groups[g + 1];
    m.groups := m.groups[..g] + [Group(b.last, a.orderable && b.orderable)] + m.groups[g + 2..];
  }

  lemma InBlock(ranks: seq<nat>, l: Layout, id: nat, g: nat)
    requires Inverse(ranks, l.space) && Contiguous(l) && id < |ranks| && g < |l.groups|
    requires First(l.groups, g) <= ranks[id] <= l.groups[g].last
    ensures id in Block(l, g)
  {
    assert GroupOk(l, g);
    assert l.space[ranks[id]] == id;
    assert Block(l, g)[ranks[id] - First(l.groups, g)] == id;
  }

  /** a and b are the groups of the two variables. */
  ghost predicate GroupsOf(l: Layout, id1: nat, id2: nat, a: nat, b: nat) {
    && Contiguous(l) && a < |l.groups| && b < |l.groups|
    && ((id1 in Block(l, a) && id2 in Block(l, b)) || (id2 in Block(l, a) && id1 in Block(l, b)))
  }

  /** bdd_merge_var_groups, which without BDD_X fails only when reordering is off or for unknown ids. */
  method MergeVarGroups(m: Manager, id1: int, id2: int) returns (ok: bool, ghost a: nat, ghost b: nat)
    requires m.Valid() && Contiguous(LayoutOf(m))
    modifies m`nodes, m`refs, m`den, m`ext, m`ranks, m`space, m`groups, m`sop, m`cache
    ensures m.Valid() && Contiguous(LayoutOf(m)) && RootsKept(old(m.Tab()), m.Tab()) && |m.ranks| == old(|m.ranks|)
    ensures ok == (m.reorder && 0 <= id1 < old(|m.ranks|) && 0 <= id2 < old(|m.ranks|))
    ensures ok ==> GroupsOf(old(LayoutOf(m)), id1, id2, a, b)
    ensures !ok || a == b ==> LayoutOf(m) == old(LayoutOf(m))
    ensures ok && a != b ==> Merged(old(LayoutOf(m)), LayoutOf(m), a, b)
  {
    hide TableOk, RootsKept, DeadSet, Inverse, Contiguous, CacheOk, Shifted, Fused, Improved, Laid, Block, MergedBy;
    ghost var t, l := m.Tab(), LayoutOf(m);
    a, b := 0, 0;
    KeysOf(t, m.ranks);
    RootsRefl(t);
    InverseSize(m.ranks, m.space);
    if !m.reorder {
      return false, a, b;
    }
    var g1 := VarToGroup(m, id1);
    var g2 := VarToGroup(m, id2);
    if g1 < 0 || g2 < 0 {
      return false, a, b;
    }
    InBlock(m.ranks, l, id1, g1);
    InBlock(m.ranks, l, id2, g2);
    a, b, ok := g1, g2, true;
    if g1 == g2 {
      return;
    }
    if g1 > g2 {
      g1, g2 := g2, g1;
    }
    a, b := g1, g2;
    if g2 - g1 - 1 == 0 {
      MergedNext(l, g1);
      Fuse(m, g1);
    } else {
      RemoveDead(m);
      ImprovedKeeps(t, m.Tab());
      LaidBegin(m, t, l);
      ghost var r, p;
      var h;
      h, r, p := BringTogether(m, g1, g2, t, l);
      LaidFacts(m, t, Shifted(l, r, p));
      InverseSize(m.ranks, m.space);
      MergedOk(l, g1, g2, r, p);
      Fuse(m, h);
      ClearCache(m);
    }
  }

  lemma LaidBegin(m: Manager, t: Table, l: Layout)
    requires m.Core() && m.sop == [] && DeadSet(m.refs) == {} && RootsKept(t, m.Tab())
    requires Contiguous(l) && LayoutOf(m) == l
    ensures Laid(m, t, l)
  {
  }
}
