/** Groups of variables on consecutive ranks, and reordering whole groups. */
module Groups {
  import opened Sets
  import opened RefCount
  import opened State
  import opened Swap
  import opened Size
  import opened Search
  import opened Turns
  import opened Graph
  import opened Sift

  datatype Layout = Layout(space: seq<nat>, groups: seq<Group>)

  function First(groups: seq<Group>, g: nat): nat
    requires g <= |groups|
  {
    if g == 0 then 0 else groups[g - 1].last + 1
  }

  ghost predicate GroupOk(l: Layout, g: nat)
    requires g < |l.groups|
  {
    First(l.groups, g) <= l.groups[g].last < |l.space|
  }

  /** The groups partition the ranks into consecutive, non-empty stretches. */
  ghost predicate Contiguous(l: Layout) {
    && (forall g {:trigger GroupOk(l, g)} :: 0 <= g < |l.groups| ==> GroupOk(l, g))
    && (if l.groups == [] then l.space == [] else l.groups[|l.groups| - 1].last + 1 == |l.space|)
  }

  /** The variables of group g, in order. */
  function Block(l: Layout, g: nat): seq<nat>
    requires Contiguous(l) && g < |l.groups|
  {
    assert GroupOk(l, g);
    l.space[First(l.groups, g)..l.groups[g].last + 1]
  }

  /** The variables of a group and whether they may be reordered. */
  datatype Subset = Subset(vars: seq<nat>, orderable: bool)

  function SubsetAt(l: Layout, g: nat): Subset
    requires Contiguous(l) && g < |l.groups|
  {
    Subset(Block(l, g), l.groups[g].orderable)
  }

  /** Where rank k's variable came from when ranks s..e and the next n ranks trade places. */
  function Turned(s: nat, e: nat, n: nat, k: nat): int {
    if s <= k < s + n then k + (e + 1 - s) else if s + n <= k <= e + n then k - n else k
  }

  function Rotated(space: seq<nat>, s: nat, e: nat, n: nat): (r: seq<nat>)
    requires s <= e + 1 && e + n < |space|
    ensures |r| == |space|
  {
    seq(|space|, k requires 0 <= k < |space| => space[Turned(s, e, n, k)])
  }

  /** Moving rank i down past n more ranks rotates one more variable. */
  lemma RotatedStep(space: seq<nat>, i: nat, e: nat, n: nat)
    requires i <= e && e + n < |space|
    ensures Moved(Rotated(space, i + 1, e, n), i, i + n) == Rotated(space, i, e, n)
  {
  }

  lemma RotatedNone(space: seq<nat>, e: nat, n: nat)
    requires e + n < |space|
    ensures Rotated(space, e + 1, e, n) == space
  {
  }

  /** The layout with group g and the next one exchanged. */
  function SwapGroups(l: Layout, g: nat): Layout
    requires Contiguous(l) && g + 1 < |l.groups|
  {
    assert GroupOk(l, g) && GroupOk(l, g + 1);
    var a, b := l.groups[g], l.groups[g + 1];
    var n := b.last - a.last;
    Layout(Rotated(l.space, First(l.groups, g), a.last, n),
           l.groups[g := Group(First(l.groups, g) + n - 1, b.orderable)][g + 1 := Group(b.last, a.orderable)])
  }

  lemma SwapGroupsOk(l: Layout, g: nat)
    requires Contiguous(l) && g + 1 < |l.groups|
    ensures Contiguous(SwapGroups(l, g))
  {
    var l' := SwapGroups(l, g);
    assert GroupOk(l, g) && GroupOk(l, g + 1);
    forall k | 0 <= k < |l'.groups|
      ensures GroupOk(l', k)
    {
      assert GroupOk(l, k);
    }
  }

  lemma RotatedBlocks(space: seq<nat>, s: nat, e: nat, n: nat, a: nat, b: nat)
    requires s <= e && e + n < |space|
    ensures Rotated(space, s, e, n)[s..s + n] == space[e + 1..e + 1 + n]
    ensures Rotated(space, s, e, n)[s + n..e + n + 1] == space[s..e + 1]
    ensures a <= b <= |space| && (b <= s || e + n < a) ==> Rotated(space, s, e, n)[a..b] == space[a..b]
  {
  }

  /** The position from which group g came. */
  function Partner(g: nat, k: nat): nat {
    if k == g then g + 1 else if k == g + 1 then g else k
  }

  lemma SwapBounds(l: Layout, g: nat, k: nat)
    requires Contiguous(l) && g + 1 < |l.groups| && k < |l.groups|
    ensures var gs, s, e := SwapGroups(l, g).groups, First(l.groups, g), l.groups[g].last;
      var n := l.groups[g + 1].last - e;
      && s <= e && 0 < n && e + n < |l.space|
      && First(gs, k) == (if k == g + 1 then s + n else First(l.groups, k))
      && gs[k].last == (if k == g then s + n - 1 else l.groups[k].last)
      && gs[k].orderable == l.groups[Partner(g, k)].orderable
  {
    assert GroupOk(l, g) && GroupOk(l, g + 1);
  }

  /** Both groups keep their variables in order, and no other group is touched. */
  lemma SwapGroupsBlocks(l: Layout, g: nat, k: nat)
    requires Contiguous(l) && g + 1 < |l.groups| && k < |l.groups|
    ensures Contiguous(SwapGroups(l, g))
    ensures Block(SwapGroups(l, g), k) == Block(l, Partner(g, k))
    ensures SwapGroups(l, g).groups[k].orderable == l.groups[Partner(g, k)].orderable
  {
    hide Rotated, Contiguous;
    var l' := SwapGroups(l, g);
    assert GroupOk(l, k) by { OneGroup(l, k); }
    SwapGroupsOk(l, g);
    BlockSide(l, g, k);
    SwapBounds(l, g, k);
    var s, e := First(l.groups, g), l.groups[g].last;
    assert l'.space == Rotated(l.space, s, e, l.groups[g + 1].last - e);
    RotatedBlocks(l.space, s, e, l.groups[g + 1].last - e, First(l.groups, k), l.groups[k].last + 1);
  }

  lemma OneGroup(l: Layout, k: nat)
    requires Contiguous(l) && k < |l.groups|
    ensures GroupOk(l, k)
  {
  }

  lemma BlockSide(l: Layout, g: nat, k: nat)
    requires Contiguous(l) && g + 1 < |l.groups| && k < |l.groups|
    ensures k < g ==> l.groups[k].last < First(l.groups, g)
    ensures k > g + 1 ==> First(l.groups, k) > l.groups[g + 1].last
    decreases if k < g then g - k else k
  {
    if k + 1 < g {
      assert GroupOk(l, k + 1);
      BlockSide(l, g, k + 1);
    } else if k > g + 2 {
      assert GroupOk(l, k - 1);
      BlockSide(l, g, k - 1);
    }
  }

  /** Exchanging two groups twice restores the layout. */
  lemma SwapGroupsTwice(l: Layout, g: nat)
    requires Contiguous(l) && g + 1 < |l.groups|
    ensures Contiguous(SwapGroups(l, g)) && SwapGroups(SwapGroups(l, g), g) == l
  {
    hide Rotated;
    SwapGroupsOk(l, g);
    assert GroupOk(l, g) && GroupOk(l, g + 1);
    var a, b := l.groups[g], l.groups[g + 1];
    var s, n := First(l.groups, g), b.last - a.last;
    RotatedTwice(l.space, s, a.last, n);
    SwapFields(l, g);
    SwapFields(SwapGroups(l, g), g);
    assert SwapGroups(SwapGroups(l, g), g).groups == l.groups;
  }

  lemma SwapFields(l: Layout, g: nat)
    requires Contiguous(l) && g + 1 < |l.groups|
    ensures First(l.groups, g) <= l.groups[g].last < l.groups[g + 1].last < |l.space|
    ensures var l' := SwapGroups(l, g);
      && First(l'.groups, g) == First(l.groups, g)
      && l'.groups[g].last == First(l.groups, g) + l.groups[g + 1].last - l.groups[g].last - 1
      && l'.groups[g + 1].last == l.groups[g + 1].last
      && l'.groups[g].orderable == l.groups[g + 1].orderable && l'.groups[g + 1].orderable == l.groups[g].orderable
      && l'.space == Rotated(l.space, First(l.groups, g), l.groups[g].last, l.groups[g + 1].last - l.groups[g].last)
  {
    assert GroupOk(l, g) && GroupOk(l, g + 1);
  }

  lemma RotatedTwice(space: seq<nat>, s: nat, e: nat, n: nat)
    requires s <= e && 0 < n && e + n < |space|
    ensures Rotated(Rotated(space, s, e, n), s, s + n - 1, e + 1 - s) == space
  {
  }

  ghost function LayoutOf(m: Manager): Layout
    reads m
  {
    Layout(m.space, m.groups)
  }

  /** Clean, ordered by space, and with the roots of t. */
  ghost predicate Holds(m: Manager, t: Table, space: seq<nat>)
    reads m
  {
    m.Core() && DeadSet(m.refs) == {} && RootsKept(t, m.Tab()) && m.space == space
  }

  lemma HoldsStart(m: Manager)
    requires m.Core() && DeadSet(m.refs) == {}
    ensures Holds(m, m.Tab(), m.space)
  {
    RootsRefl(m.Tab());
  }

  /** BDD_SWAP_RANKS, as a step of a longer move. */
  method SwapOne(m: Manager, rank: nat, ghost t: Table, ghost space: seq<nat>, ghost r: nat)
    requires r < |space| && rank + 1 < |space| && Holds(m, t, Moved(space, r, rank))
    modifies m`nodes, m`refs, m`den, m`ext, m`ranks, m`space
    ensures Holds(m, t, Moved(space, r, rank + 1))
  {
    hide TableOk, Swapped, RootsKept, DeadSet, Inverse, Moved;
    ghost var u, space1, ranks1 := m.Tab(), m.space, m.ranks;
    SwapLevels(m, rank);
    SwapKeepsRoots(u, ranks1, m.Tab(), space1[rank], space1[rank + 1]);
    SwappedClean(u, m.Tab(), space1[rank], space1[rank + 1]);
    RootsTrans(t, u, m.Tab());
    MovedStep(space, r, rank);
  }

  /** bdd_move_rank_down, which cannot fail without BDD_X. */
  method MoveRankDown(m: Manager, orig: nat, target: nat, ghost t: Table, ghost space: seq<nat>)
    requires orig <= target < |space| && Holds(m, t, space)
    modifies m`nodes, m`refs, m`den, m`ext, m`ranks, m`space
    ensures Holds(m, t, Moved(space, orig, target))
  {
    hide Holds, Moved;
    MovedSelf(space, orig);
    for rank := orig to target
      invariant Holds(m, t, Moved(space, orig, rank))
    {
      SwapOne(m, rank, t, space, orig);
    }
  }

  /** bdd_swap_group_down: exchange group g with the next one. */
  method SwapGroupDown(m: Manager, g: nat)
    requires m.Core() && DeadSet(m.refs) == {} && Contiguous(LayoutOf(m)) && g + 1 < |m.groups|
    modifies m`nodes, m`refs, m`den, m`ext, m`ranks, m`space, m`groups
    ensures m.Core() && DeadSet(m.refs) == {} && RootsKept(old(m.Tab()), m.Tab())
    ensures LayoutOf(m) == SwapGroups(old(LayoutOf(m)), g) && Contiguous(LayoutOf(m))
  {
    hide Holds, Rotated, Moved, TableOk, DeadSet, RootsKept, Contiguous, Inverse;
    ghost var t, space := m.Tab(), m.space;
    ghost var l := LayoutOf(m);
    SwapGroupsOk(l, g);
    SwapFields(l, g);
    var start, end := First(m.groups, g), m.groups[g].last;
    var nr := m.groups[g + 1].last - end;
    var i := end + 1;
    RotatedNone(space, end, nr);
    HoldsStart(m);
    while i > start
      invariant start <= i <= end + 1 && Holds(m, t, Rotated(space, i, end, nr)) && m.groups == l.groups
    {
      i := i - 1;
      MoveRankDown(m, i, i + nr, t, Rotated(space, i + 1, end, nr));
      RotatedStep(space, i, end, nr);
    }
    HoldsEnd(m, t, Rotated(space, start, end, nr));
    var orderable := m.groups[g].orderable;
    m.groups := m.groups[g := Group(start + nr - 1, m.groups[g + 1].orderable)]
                        [g + 1 := Group(m.groups[g + 1].last, orderable)];
  }

  lemma HoldsEnd(m: Manager, t: Table, space: seq<nat>)
    requires Holds(m, t, space)
    ensures m.Core() && DeadSet(m.refs) == {} && RootsKept(t, m.Tab()) && m.space == space
  {
  }

  /** Group r moved to position p, one exchange at a time. */
  function Shifted(l: Layout, r: nat, p: nat): (s: Layout)
    requires Contiguous(l) && r < |l.groups| && p < |l.groups|
    ensures Contiguous(s) && |s.groups| == |l.groups| && |s.space| == |l.space|
    decreases if p < r then r - p else p - r
  {
    if p == r then l
    else if r < p then
      SwapGroupsOk(Shifted(l, r, p - 1), p - 1);
      SwapGroups(Shifted(l, r, p - 1), p - 1)
    else
      SwapGroupsOk(Shifted(l, r, p + 1), p);
      SwapGroups(Shifted(l, r, p + 1), p)
  }

  lemma ShiftedStep(l: Layout, r: nat, p: nat)
    requires Contiguous(l) && r < |l.groups| && p + 1 < |l.groups|
    ensures SwapGroups(Shifted(l, r, p), p) == Shifted(l, r, p + 1)
    ensures SwapGroups(Shifted(l, r, p + 1), p) == Shifted(l, r, p)
  {
    hide SwapGroups, Contiguous;
    SwapGroupsTwice(Shifted(l, r, p), p);
    SwapGroupsTwice(Shifted(l, r, p + 1), p);
  }

  /** The orders in which group r is elsewhere. */
  function GroupMoves(l: Layout, r: nat): Orders
    requires Contiguous(l) && r < |l.groups|
  {
    seq(|l.groups|, p requires 0 <= p < |l.groups| => Shifted(l, r, p).space)
  }

  /** The arrays groups and backrefs of bdd_dynamic_order: the position of every listed group, and
      the list index of the group on every position. */
  datatype Links = Links(pos: seq<nat>, back: seq<nat>)

  ghost predicate Link(k: Links, j: nat)
    requires |k.back| == |k.pos| && j < |k.pos|
  {
    && k.pos[j] < |k.pos| && k.back[j] < |k.pos|
    && k.back[k.pos[j]] == j && k.pos[k.back[j]] == j
  }

  ghost predicate Linked(k: Links) {
    |k.back| == |k.pos| && forall j {:trigger Link(k, j)} :: 0 <= j < |k.pos| ==> Link(k, j)
  }

  ghost predicate Sits(l: Layout, subsets: seq<Subset>, k: Links, j: nat)
    requires Contiguous(l) && |k.pos| == |l.groups| == |subsets| && j < |k.pos|
  {
    k.pos[j] < |l.groups| && SubsetAt(l, k.pos[j]) == subsets[j]
  }

  /** The two arrays are inverse permutations, and the j-th listed group sits where they say. */
  ghost predicate Tracked(l: Layout, subsets: seq<Subset>, k: Links) {
    && Contiguous(l) && Linked(k) && |k.pos| == |l.groups| == |subsets|
    && (forall j {:trigger Sits(l, subsets, k, j)} :: 0 <= j < |k.pos| ==> Sits(l, subsets, k, j))
  }

  /** What the bookkeeping does when the groups on positions g and g + 1 are exchanged. */
  ghost function Relinked(k: Links, g: nat): Links
    requires Linked(k) && g + 1 < |k.pos|
  {
    assert Link(k, g) && Link(k, g + 1);
    var a, b := k.back[g], k.back[g + 1];
    Links(k.pos[a := g + 1][b := g], k.back[g := b][g + 1 := a])
  }

  lemma RelinkedOk(k: Links, g: nat)
    requires Linked(k) && g + 1 < |k.pos|
    ensures Linked(Relinked(k, g)) && |Relinked(k, g).pos| == |k.pos|
    ensures forall j {:trigger Relinked(k, g).pos[j]} :: 0 <= j < |k.pos| ==> k.pos[j] == Partner(g, Relinked(k, g).pos[j])
  {
    var k' := Relinked(k, g);
    assert Link(k, g) && Link(k, g + 1);
    forall j | 0 <= j < |k.pos|
      ensures Link(k', j) && k.pos[j] == Partner(g, k'.pos[j])
    {
      assert Link(k, j);
      assert Link(k, k.pos[j]) && Link(k, k.back[j]);
    }
  }

  lemma TrackedSwap(l: Layout, g: nat, subsets: seq<Subset>, k: Links)
    requires Tracked(l, subsets, k) && g + 1 < |l.groups|
    ensures Tracked(SwapGroups(l, g), subsets, Relinked(k, g))
  {
    hide SwapGroups, Contiguous, Linked, Block, Relinked;
    var k' := Relinked(k, g);
    RelinkedOk(k, g);
    SwapGroupsOk(l, g);
    SwapCount(l, g);
    forall j | 0 <= j < |k'.pos|
      ensures Sits(SwapGroups(l, g), subsets, k', j)
    {
      assert Sits(l, subsets, k, j);
      assert k.pos[j] == Partner(g, k'.pos[j]);
      assert k'.pos[j] < |l.groups| by { LinkBound(k', j); }
      SwapGroupsBlocks(l, g, k'.pos[j]);
    }
  }

  lemma SwapCount(l: Layout, g: nat)
    requires Contiguous(l) && g + 1 < |l.groups|
    ensures |SwapGroups(l, g).groups| == |l.groups| && |SwapGroups(l, g).space| == |l.space|
  {
  }

  lemma LinkBound(k: Links, j: nat)
    requires Linked(k) && j < |k.pos|
    ensures |k.back| == |k.pos| && k.pos[j] < |k.pos| && k.back[j] < |k.pos|
    ensures k.back[k.pos[j]] == j && k.pos[k.back[j]] == j
  {
    assert Link(k, j);
  }

  /** Exchange the i-th listed group, on position g, with the next. */
  method MoveDown(m: Manager, i: nat, g: nat, k: Links, ghost subsets: seq<Subset>) returns (k': Links)
    requires m.Core() && DeadSet(m.refs) == {} && Tracked(LayoutOf(m), subsets, k)
    requires i < |k.pos| && k.pos[i] == g && g + 1 < |m.groups|
    modifies m`nodes, m`refs, m`den, m`ext, m`ranks, m`space, m`groups
    ensures m.Core() && DeadSet(m.refs) == {} && RootsKept(old(m.Tab()), m.Tab())
    ensures Contiguous(old(LayoutOf(m))) && LayoutOf(m) == SwapGroups(old(LayoutOf(m)), g)
    ensures Tracked(LayoutOf(m), subsets, k') && i < |k'.pos| && k'.pos[i] == g + 1
  {
    hide TableOk, DeadSet, RootsKept, Contiguous, Inverse, SwapGroups;
    ghost var l := LayoutOf(m);
    TrackedSwap(l, g, subsets, k);
    LinkBound(k, i);
    LinkBound(k, g + 1);
    SwapGroupDown(m, g);
    var j := k.back[g + 1];
    k' := Links(k.pos[i := k.pos[i] + 1][j := k.pos[j] - 1], k.back[g := j][g + 1 := i]);
    assert k' == Relinked(k, g);
  }

  /** Exchange the i-th listed group, on position g, with the previous one. */
  method MoveUp(m: Manager, i: nat, g: nat, k: Links, ghost subsets: seq<Subset>) returns (k': Links)
    requires m.Core() && DeadSet(m.refs) == {} && Tracked(LayoutOf(m), subsets, k)
    requires i < |k.pos| && k.pos[i] == g && 0 < g < |m.groups|
    modifies m`nodes, m`refs, m`den, m`ext, m`ranks, m`space, m`groups
    ensures m.Core() && DeadSet(m.refs) == {} && RootsKept(old(m.Tab()), m.Tab())
    ensures Contiguous(old(LayoutOf(m))) && LayoutOf(m) == SwapGroups(old(LayoutOf(m)), g - 1)
    ensures Tracked(LayoutOf(m), subsets, k') && i < |k'.pos| && k'.pos[i] == g - 1
  {
    hide TableOk, DeadSet, RootsKept, Contiguous, Inverse, SwapGroups;
    ghost var l := LayoutOf(m);
    TrackedSwap(l, g - 1, subsets, k);
    LinkBound(k, i);
    LinkBound(k, g - 1);
    SwapGroupDown(m, g - 1);
    var j := k.back[g - 1];
    k' := Links(k.pos[i := k.pos[i] - 1][j := k.pos[j] + 1], k.back[g := j][g - 1 := i]);
    assert k' == Relinked(k, g - 1);
  }

  /** The state is that of position p of a search with the i-th listed group, which was on r. */
  ghost predicate GroupAt(m: Manager, t: Table, l: Layout, r: nat, p: nat, best: nat, size: nat, tried: Trials,
                          i: nat, k: Links, subsets: seq<Subset>)
    reads m
  {
    && Contiguous(l) && r < |l.groups| && p < |l.groups| && |m.cache| > 0
    && Searching(t, GroupMoves(l, r), Now(m), p, best, size, tried)
    && LayoutOf(m) == Shifted(l, r, p) && Tracked(LayoutOf(m), subsets, k)
    && i < |k.pos| && k.pos[i] == p
  }

  ghost predicate AtOrNew(m: Manager, t: Table, l: Layout, r: nat, p: nat, best: nat, size: nat, tried: Trials,
                          i: nat, k: Links, subsets: seq<Subset>)
    reads m
  {
    && GroupAt(m, t, l, r, p, best, size, tried, i, k, subsets)
    && (p !in tried ==>
          if |m.nodes| < size then GroupAt(m, t, l, r, p, p, |m.nodes|, tried[p := Now(m)], i, k, subsets)
          else GroupAt(m, t, l, r, p, best, size, tried[p := Now(m)], i, k, subsets))
  }

  lemma GroupStepOk(m: Manager, u: Snapshot, t: Table, l: Layout, r: nat, p: nat, p': nat, best: nat, size: nat,
                    tried: Trials, i: nat, k: Links, subsets: seq<Subset>)
    requires Contiguous(l) && r < |l.groups| && p < |l.groups| && p' < |l.groups|
    requires Searching(t, GroupMoves(l, r), u, p, best, size, tried)
    requires m.Core() && DeadSet(m.refs) == {} && RootsKept(u.t, m.Tab())
    requires LayoutOf(m) == Shifted(l, r, p') && Tracked(LayoutOf(m), subsets, k)
    requires i < |k.pos| && k.pos[i] == p'
    ensures AtOrNew(m, t, l, r, p', best, size, tried, i, k, subsets)
  {
    hide TableOk, RootsKept, DeadSet, Inverse, Searching, Tracked, Contiguous, Shifted;
    MovesAt(l, r, p');
    SearchStep(t, GroupMoves(l, r), u, p, best, size, tried, Now(m), p');
  }

  lemma MovesAt(l: Layout, r: nat, p: nat)
    requires Contiguous(l) && r < |l.groups| && p < |l.groups|
    ensures |GroupMoves(l, r)| == |l.groups| && GroupMoves(l, r)[p] == Shifted(l, r, p).space
  {
  }

  method GroupStepDown(m: Manager, p: nat, best: nat, size: nat, i: nat, k: Links, ghost t: Table,
                       ghost l: Layout, ghost r: nat, ghost tried: Trials, ghost subsets: seq<Subset>)
    returns (k': Links)
    requires GroupAt(m, t, l, r, p, best, size, tried, i, k, subsets) && p + 1 < |l.groups|
    modifies m`nodes, m`refs, m`den, m`ext, m`ranks, m`space, m`groups
    ensures AtOrNew(m, t, l, r, p + 1, best, size, tried, i, k', subsets)
  {
    hide TableOk, RootsKept, DeadSet, Inverse, Searching, Tracked, Contiguous, Shifted, GroupMoves, AtOrNew, SwapGroups;
    ghost var u := Now(m);
    GroupStart(m, t, l, r, p, best, size, tried, i, k, subsets);
    k' := MoveDown(m, i, p, k, subsets);
    ShiftedStep(l, r, p);
    GroupStepOk(m, u, t, l, r, p, p + 1, best, size, tried, i, k', subsets);
  }

  method GroupStepUp(m: Manager, p: nat, best: nat, size: nat, i: nat, k: Links, ghost t: Table,
                     ghost l: Layout, ghost r: nat, ghost tried: Trials, ghost subsets: seq<Subset>)
    returns (k': Links)
    requires GroupAt(m, t, l, r, p, best, size, tried, i, k, subsets) && 0 < p
    modifies m`nodes, m`refs, m`den, m`ext, m`ranks, m`space, m`groups
    ensures AtOrNew(m, t, l, r, p - 1, best, size, tried, i, k', subsets)
  {
    hide TableOk, RootsKept, DeadSet, Inverse, Searching, Tracked, Contiguous, Shifted, GroupMoves, AtOrNew, SwapGroups;
    ghost var u := Now(m);
    GroupStart(m, t, l, r, p, best, size, tried, i, k, subsets);
    k' := MoveUp(m, i, p, k, subsets);
    ShiftedStep(l, r, p - 1);
    GroupStepOk(m, u, t, l, r, p, p - 1, best, size, tried, i, k', subsets);
  }

  lemma GroupStart(m: Manager, t: Table, l: Layout, r: nat, p: nat, best: nat, size: nat, tried: Trials,
                   i: nat, k: Links, subsets: seq<Subset>)
    requires GroupAt(m, t, l, r, p, best, size, tried, i, k, subsets)
    ensures m.Core() && DeadSet(m.refs) == {} && |m.groups| == |l.groups|
    ensures Tracked(LayoutOf(m), subsets, k) && best in tried
  {
    hide TableOk, Tracked, Contiguous, Shifted;
    SearchFacts(t, GroupMoves(l, r), Now(m), p, best, size, tried);
    MovesAt(l, r, p);
  }

  /** Down as long as the table does not grow too much, and back up. */
  method GroupsDown(m: Manager, r: nat, i: nat, k0: Links, ghost t: Table, ghost l: Layout, ghost subsets: seq<Subset>)
    returns (best: nat, size: nat, k: Links, ghost hi: nat, ghost tried: Trials)
    requires GroupAt(m, t, l, r, r, r, |m.nodes|, map[r := Now(m)], i, k0, subsets) && r < |m.groups| == |l.groups|
    modifies m`nodes, m`refs, m`den, m`ext, m`ranks, m`space, m`groups
    ensures GroupAt(m, t, l, r, r, best, size, tried, i, k, subsets)
    ensures r <= best < |l.groups| && r <= hi < |l.groups| && size <= old(|m.nodes|) && Between(tried, r, hi)
    ensures hi + 2 < |l.groups| ==> TooLarge(|tried[hi].t.g|, size)
  {
    hide GroupAt, Shifted, Contiguous;
    var n := |m.groups|;
    var g := r;
    best, size, k, hi, tried := r, |m.nodes|, k0, r, map[r := Now(m)];
    while g + 2 < n
      invariant r <= best <= g < n == |l.groups| && hi == g && size <= old(|m.nodes|) && Between(tried, r, hi)
      invariant GroupAt(m, t, l, r, g, best, size, tried, i, k, subsets)
    {
      k := GroupStepDown(m, g, best, size, i, k, t, l, r, tried, subsets);
      g, hi := g + 1, hi + 1;
      tried := tried[g := Now(m)];
      if |m.nodes| < size {
        size, best := |m.nodes|, g;
      } else if TooLarge(|m.nodes|, size) {
        break;
      }
    }
    while g > r
      invariant r <= g < n == |l.groups|
      invariant GroupAt(m, t, l, r, g, best, size, tried, i, k, subsets)
    {
      k := GroupStepUp(m, g, best, size, i, k, t, l, r, tried, subsets);
      g := g - 1;
    }
  }

  /** Up as long as the table does not grow too much. */
  method GroupsUp(m: Manager, r: nat, i: nat, best0: nat, size0: nat, k0: Links, ghost hi: nat, ghost t: Table,
                  ghost l: Layout, ghost subsets: seq<Subset>, ghost tried0: Trials)
    returns (g: nat, best: nat, size: nat, k: Links, ghost tried: Trials)
    requires GroupAt(m, t, l, r, r, best0, size0, tried0, i, k0, subsets) && r < |l.groups|
    requires r <= best0 && r <= hi && Between(tried0, r, hi)
    modifies m`nodes, m`refs, m`den, m`ext, m`ranks, m`space, m`groups
    ensures GroupAt(m, t, l, r, g, best, size, tried, i, k, subsets)
    ensures g <= r && g <= best && (best == best0 || best < r) && size <= size0
    ensures Between(tried, g, hi) && hi in tried0 && tried[hi] == tried0[hi]
    ensures g > 0 ==> TooLarge(|tried[g].t.g|, size)
  {
    hide GroupAt, Shifted, Contiguous;
    g, best, size, k, tried := r, best0, size0, k0, tried0;
    while g > 0
      invariant g <= r && g <= best && (best == best0 || best < r) && size <= size0
      invariant Between(tried, g, hi) && tried[hi] == tried0[hi]
      invariant GroupAt(m, t, l, r, g, best, size, tried, i, k, subsets)
    {
      k := GroupStepUp(m, g, best, size, i, k, t, l, r, tried, subsets);
      g := g - 1;
      tried := tried[g := Now(m)];
      if |m.nodes| < size {
        size, best := |m.nodes|, g;
      } else if TooLarge(|m.nodes|, size) {
        break;
      }
    }
  }

  /** The body of the loop of bdd_dynamic_order over the groups: the i-th listed group is tried on
      every position and left where the table was smallest. */
  method SiftGroup(m: Manager, i: nat, k0: Links, ghost subsets: seq<Subset>)
    returns (k: Links, best: nat, ghost lo: nat, ghost hi: nat)
    requires m.Core() && DeadSet(m.refs) == {} && Tracked(LayoutOf(m), subsets, k0) && i < |k0.pos|
    modifies m`nodes, m`refs, m`den, m`ext, m`ranks, m`space, m`groups
    ensures m.Core() && DeadSet(m.refs) == {} && Tracked(LayoutOf(m), subsets, k) && |k.pos| == |k0.pos|
    ensures RootsKept(old(m.Tab()), m.Tab())
    ensures k0.pos[i] < |m.groups| && Contiguous(old(LayoutOf(m))) && |m.groups| == old(|m.groups|)
    ensures best < |m.groups| && LayoutOf(m) == Shifted(old(LayoutOf(m)), k0.pos[i], best)
    ensures Spacious(old(m.Tab())) || Frozen(m.refs) == old(Frozen(m.refs)) ==>
      Optimal(old(m.Tab()), GroupMoves(old(LayoutOf(m)), k0.pos[i]), k0.pos[i], 0, |m.groups| - 1, lo, hi, |m.nodes|)
  {
    hide GroupAt, Shifted, TableOk, DeadSet, RootsKept, Contiguous, Inverse, Searching, Tracked, Optimal, Spacious;
    ghost var t, ranks, l := m.Tab(), m.ranks, LayoutOf(m);
    TrackedFacts(l, subsets, k0, i);
    var r := k0.pos[i];
    GroupBegin(m, i, k0, subsets);
    ghost var tried;
    var size, g;
    best, size, k, hi, tried := GroupsDown(m, r, i, k0, t, l, subsets);
    g, best, size, k, tried := GroupsUp(m, r, i, best, size, k, hi, t, l, subsets, tried);
    lo := g;
    while g < best
      invariant g <= best < |l.groups|
      invariant GroupAt(m, t, l, r, g, best, size, tried, i, k, subsets)
    {
      k := GroupStepDown(m, g, best, size, i, k, t, l, r, tried, subsets);
      g := g + 1;
    }
    GroupEnd(m, t, ranks, l, r, best, size, tried, i, k, subsets, lo, hi);
  }

  lemma TrackedFacts(l: Layout, subsets: seq<Subset>, k: Links, i: nat)
    requires Tracked(l, subsets, k) && i < |k.pos|
    ensures Contiguous(l) && |k.pos| == |l.groups| == |k.back| && k.pos[i] < |l.groups|
  {
    LinkBound(k, i);
  }

  lemma GroupBegin(m: Manager, i: nat, k: Links, subsets: seq<Subset>)
    requires m.Core() && DeadSet(m.refs) == {} && Tracked(LayoutOf(m), subsets, k) && i < |k.pos|
    ensures var r := k.pos[i];
      GroupAt(m, m.Tab(), LayoutOf(m), r, r, r, |m.nodes|, map[r := Now(m)], i, k, subsets)
  {
    hide TableOk, DeadSet, Tracked, Contiguous, Inverse, Searching;
    ghost var l := LayoutOf(m);
    TrackedFacts(l, subsets, k, i);
    MovesAt(l, k.pos[i], k.pos[i]);
    SearchBegin(Now(m), GroupMoves(l, k.pos[i]), k.pos[i]);
  }

  lemma GroupEnd(m: Manager, t: Table, ranks: seq<nat>, l: Layout, r: nat, best: nat, size: nat, tried: Trials,
                 i: nat, k: Links, subsets: seq<Subset>, lo: nat, hi: nat)
    requires GroupAt(m, t, l, r, best, best, size, tried, i, k, subsets) && Clean(t, ranks)
    requires Between(tried, lo, hi) && lo <= r <= hi < |l.groups| && size <= |t.g|
    requires lo > 0 ==> TooLarge(|tried[lo].t.g|, size)
    requires hi + 2 < |l.groups| ==> TooLarge(|tried[hi].t.g|, size)
    ensures m.Core() && DeadSet(m.refs) == {} && RootsKept(t, m.Tab())
    ensures Tracked(LayoutOf(m), subsets, k) && |k.pos| == |l.groups| == |m.groups| && Contiguous(l)
    ensures r < |l.groups| && best < |l.groups| && LayoutOf(m) == Shifted(l, r, best)
    ensures Spacious(t) || Frozen(m.refs) == Frozen(t.refs) ==>
      Optimal(t, GroupMoves(l, r), r, 0, |l.groups| - 1, lo, hi, |m.nodes|)
  {
    hide TableOk, DeadSet, Tracked, Contiguous, Inverse, Searching, Optimal, Spacious;
    GroupStart(m, t, l, r, best, best, size, tried, i, k, subsets);
    TrackedFacts(LayoutOf(m), subsets, k, i);
    SearchEnd(t, GroupMoves(l, r), Now(m), best, size, tried);
    if Frozen(m.refs) == Frozen(t.refs) {
      TriedOptimal(t, ranks, GroupMoves(l, r), r, Now(m), best, size, tried, 0, |l.groups| - 1, lo, hi);
    }
  }

  ghost predicate HasSubset(l: Layout, b: Subset)
    requires Contiguous(l)
  {
    exists g {:trigger SubsetAt(l, g)} :: 0 <= g < |l.groups| && SubsetAt(l, g) == b
  }

  /** Every group is still there, with the same variables in the same order and the same flag. */
  ghost predicate SameBlocks(l: Layout, l': Layout) {
    && Contiguous(l) && Contiguous(l') && |l'.groups| == |l.groups|
    && (forall g {:trigger SubsetAt(l, g)} :: 0 <= g < |l.groups| ==> HasSubset(l', SubsetAt(l, g)))
  }

  predicate Injective(pos: seq<nat>) {
    && (forall i {:trigger pos[i]} :: 0 <= i < |pos| ==> pos[i] < |pos|)
    && (forall i, j :: 0 <= i < j < |pos| ==> pos[i] != pos[j])
  }

  function Positions(n: nat): seq<nat> {
    seq(n, i => i)
  }

  lemma PermutedInjective(pos: seq<nat>, n: nat)
    requires multiset(pos) == multiset(Positions(n))
    ensures |pos| == n && Injective(pos)
  {
    var id := Positions(n);
    assert |multiset(pos)| == |multiset(id)|;
    forall i | 0 <= i < |pos|
      ensures pos[i] < n
    {
      assert pos[i] in multiset(id);
      assert pos[i] in id;
    }
    forall i, j | 0 <= i < j < |pos|
      ensures pos[i] != pos[j]
    {
      OnceIn(id, pos[i]);
      if pos[i] == pos[j] {
        TwiceIn(pos, i, j);
      }
    }
  }

  lemma {:induction false} OnceIn(s: seq<nat>, x: nat)
    requires forall i {:trigger s[i]} :: 0 <= i < |s| ==> s[i] == i
    ensures multiset(s)[x] <= 1
  {
    if x < |s| {
      assert s == s[..x] + [s[x]] + s[x + 1..];
      assert x !in s[..x] && x !in s[x + 1..];
    } else {
      assert x !in s;
    }
  }

  lemma TwiceIn(s: seq<nat>, i: nat, j: nat)
    requires i < j < |s| && s[i] == s[j]
    ensures multiset(s)[s[i]] >= 2
  {
    assert s == s[..j] + [s[j]] + s[j + 1..];
    assert s[..j][i] in multiset(s[..j]);
  }

  ghost function Values(pos: seq<nat>): (s: set<nat>)
    ensures forall x {:trigger x in s} :: x in s <==> x in pos
  {
    if pos == [] then {} else Values(pos[..|pos| - 1]) + {pos[|pos| - 1]}
  }

  lemma {:induction false} ValueCount(pos: seq<nat>)
    requires forall i, j :: 0 <= i < j < |pos| ==> pos[i] != pos[j]
    ensures |Values(pos)| == |pos|
  {
    if pos != [] {
      var last := |pos| - 1;
      var rest := pos[..last];
      ValueCount(rest);
      assert pos[last] !in rest;
      assert Values(pos) == Values(rest) + {pos[last]};
    }
  }

  /** An injective list of n positions below n hits every position. */
  lemma HitsAll(pos: seq<nat>, p: nat)
    requires Injective(pos) && p < |pos|
    ensures p in pos
  {
    if p !in pos {
      ValueCount(pos);
      SubsetSize(Values(pos), UpTo(|pos|) - {p});
    }
  }

  /** backrefs is filled in as the inverse of groups. */
  method MakeLinks(pos: seq<nat>) returns (k: Links)
    requires Injective(pos)
    ensures k.pos == pos && Linked(k)
  {
    var back: seq<nat> := seq(|pos|, _ => 0);
    for g := 0 to |pos|
      invariant |back| == |pos| && forall j :: 0 <= j < g ==> back[pos[j]] == j
    {
      back := back[pos[g] := g];
    }
    k := Links(pos, back);
    forall j | 0 <= j < |pos|
      ensures Link(k, j)
    {
      HitsAll(pos, j);
      var i :| 0 <= i < |pos| && pos[i] == j;
      assert back[pos[i]] == i;
    }
  }

  ghost function SubsetsBy(l: Layout, k: Links): (b: seq<Subset>)
    requires Contiguous(l) && Linked(k) && |k.pos| == |l.groups|
  {
    seq(|k.pos|, j requires 0 <= j < |k.pos| => LinkBound(k, j); SubsetAt(l, k.pos[j]))
  }

  lemma TrackedBegin(l: Layout, k: Links)
    requires Contiguous(l) && Linked(k) && |k.pos| == |l.groups|
    ensures Tracked(l, SubsetsBy(l, k), k)
  {
    hide Contiguous, Block;
    forall j | 0 <= j < |k.pos|
      ensures Sits(l, SubsetsBy(l, k), k, j)
    {
      LinkBound(k, j);
    }
  }

  lemma TrackedEnd(l: Layout, k: Links, l': Layout, k': Links)
    requires Contiguous(l) && Linked(k) && |k.pos| == |l.groups|
    requires Tracked(l', SubsetsBy(l, k), k')
    ensures SameBlocks(l, l')
  {
    hide Block;
    forall g | 0 <= g < |l.groups|
      ensures HasSubset(l', SubsetAt(l, g))
    {
      LinkBound(k, g);
      var j := k.back[g];
      assert Sits(l', SubsetsBy(l, k), k', j);
      assert SubsetAt(l', k'.pos[j]) == SubsetsBy(l, k)[j] == SubsetAt(l, g);
    }
  }

  /** group_count_items: how many nodes there are for the variables of a group. */
  function ItemsOf(g: Nodes, vars: seq<nat>): nat {
    if vars == [] then 0 else ItemsOf(g, vars[..|vars| - 1]) + Items(g, vars[|vars| - 1])
  }

  method GroupCountItems(m: Manager, g: nat) returns (n: nat)
    requires Contiguous(LayoutOf(m)) && g < |m.groups|
    ensures n == ItemsOf(m.nodes, Block(LayoutOf(m), g))
  {
    OneGroup(LayoutOf(m), g);
    n := 0;
    var start, end := First(m.groups, g), m.groups[g].last;
    for rank := start to end + 1
      invariant n == ItemsOf(m.nodes, m.space[start..rank])
    {
      assert m.space[start..rank + 1][..rank - start] == m.space[start..rank];
      n := n + Items(m.nodes, m.space[rank]);
    }
  }

  /** Groups by how many nodes there are for them. */
  function ByCount(counts: seq<nat>): Weight {
    (g: nat) => if g < |counts| then counts[g] else 0
  }

  ghost function Counts(g: Nodes, l: Layout): (counts: seq<nat>)
    requires Contiguous(l)
  {
    seq(|l.groups|, k requires 0 <= k < |l.groups| => ItemsOf(g, Block(l, k)))
  }

  /** The groups in the order of their turns, and how many have one. */
  method SortGroups(m: Manager) returns (pos: seq<nat>, n: nat)
    requires Contiguous(LayoutOf(m))
    ensures multiset(pos) == multiset(Positions(|m.groups|)) && |pos| == |m.groups| && Injective(pos)
    ensures Falling(ByCount(Counts(m.nodes, LayoutOf(m))), pos)
    ensures Candidates(ByCount(Counts(m.nodes, LayoutOf(m))), pos, n, 0)
  {
    hide Contiguous, Falling, Candidates, Injective, Block, ItemsOf;
    var counts: seq<nat> := [];
    for g := 0 to |m.groups|
      invariant |counts| == g && forall k :: 0 <= k < g ==> counts[k] == Counts(m.nodes, LayoutOf(m))[k]
    {
      var items := GroupCountItems(m, g);
      counts := counts + [items];
    }
    assert counts == Counts(m.nodes, LayoutOf(m));
    ghost var some := SomeFalling(ByCount(counts), Positions(|m.groups|));
    pos :| multiset(pos) == multiset(Positions(|m.groups|)) && Falling(ByCount(counts), pos);
    PermutedInjective(pos, |m.groups|);
    n := CountCandidates(ByCount(counts), pos, 0);
  }

  /** A table and its layout while groups are sifted. */
  datatype GroupStage = GroupStage(t: Table, l: Layout)

  ghost function GroupStageOf(m: Manager): GroupStage
    reads m
  {
    GroupStage(m.Tab(), LayoutOf(m))
  }

  /** The group that was the who-th of layout l0 was sifted from position r to position best. */
  ghost predicate GroupTurnOk(l0: Layout, who: nat, a: GroupStage, b: GroupStage, u: Turn) {
    && Contiguous(l0) && Contiguous(a.l) && |a.l.groups| == |l0.groups| && who < |l0.groups|
    && u.r < |a.l.groups| && u.best < |a.l.groups| && SubsetAt(a.l, u.r) == SubsetAt(l0, who)
    && b.l == Shifted(a.l, u.r, u.best) && RootsKept(a.t, b.t)
    && (Spacious(a.t) || Frozen(b.t.refs) == Frozen(a.t.refs) ==>
          Optimal(a.t, GroupMoves(a.l, u.r), u.r, 0, |a.l.groups| - 1, u.lo, u.hi, |b.t.g|))
  }

  ghost function GroupTurnsOf(l0: Layout): (nat, GroupStage, GroupStage, Turn) -> bool {
    (who: nat, a: GroupStage, b: GroupStage, u: Turn) => GroupTurnOk(l0, who, a, b, u)
  }

  ghost function GroupStageSize(): GroupStage -> nat {
    (a: GroupStage) => |a.t.g|
  }

  /** The sweep over the groups has led from stage a to stage b. */
  ghost predicate GroupSweep(a: GroupStage, b: GroupStage, w: Sweep<GroupStage, Turn>) {
    && Contiguous(a.l) && multiset(w.order) == multiset(Positions(|a.l.groups|))
    && Falling(ByCount(Counts(a.t.g, a.l)), w.order) && Candidates(ByCount(Counts(a.t.g, a.l)), w.order, w.n, 0)
    && Sweeping(w, GroupStageSize(), GroupTurnsOf(a.l)) && w.stages[0] == a && w.stages[|w.turns|] == b
  }

  ghost predicate GroupsSifted(a: GroupStage, b: GroupStage, w: Sweep<GroupStage, Turn>) {
    GroupSweep(a, b, w) && Complete(w, GroupStageSize(), GroupTurnsOf(a.l))
  }

  lemma GroupSweepFacts(a: GroupStage, b: GroupStage, w: Sweep<GroupStage, Turn>)
    requires GroupSweep(a, b, w)
    ensures Contiguous(a.l) && Sweeping(w, GroupStageSize(), GroupTurnsOf(a.l)) && w.stages[|w.turns|] == b
  {
  }

  lemma GroupSweepStart(a: GroupStage, order: seq<nat>, n: nat)
    requires Contiguous(a.l) && multiset(order) == multiset(Positions(|a.l.groups|))
    requires Falling(ByCount(Counts(a.t.g, a.l)), order) && Candidates(ByCount(Counts(a.t.g, a.l)), order, n, 0)
    ensures GroupSweep(a, a, Sweep(order, n, [a], [])) && Total(Sizes([a], GroupStageSize())) == |a.t.g|
  {
    hide Contiguous, Falling, Counts;
    SweepStart(order, n, a, GroupStageSize(), GroupTurnsOf(a.l));
  }

  lemma GroupSweepNext(a: GroupStage, b: GroupStage, w: Sweep<GroupStage, Turn>, c: GroupStage, u: Turn)
    requires GroupSweep(a, b, w) && |w.turns| < w.n && GroupTurnOk(a.l, w.order[|w.turns|], b, c, u)
    requires Total(Sizes(w.stages, GroupStageSize())) * w.n <= BUDGET
    ensures GroupSweep(a, c, w.(stages := w.stages + [c], turns := w.turns + [u]))
    ensures Total(Sizes(w.stages + [c], GroupStageSize())) == Total(Sizes(w.stages, GroupStageSize())) + |c.t.g|
  {
    hide GroupTurnOk, Sweeping, Falling, Candidates, Contiguous, Counts;
    GroupSweepFacts(a, b, w);
    SweepNext(w, GroupStageSize(), GroupTurnsOf(a.l), c, u);
  }

  /** The part of bdd_dynamic_order that moves whole groups: those with the most nodes first, stopping
      when enough time is spent. */
  method OrderGroups(m: Manager) returns (gained: int, ghost w: Sweep<GroupStage, Turn>)
    requires m.Core() && DeadSet(m.refs) == {} && Contiguous(LayoutOf(m))
    modifies m`nodes, m`refs, m`den, m`ext, m`ranks, m`space, m`groups
    ensures m.Core() && DeadSet(m.refs) == {} && SameBlocks(old(LayoutOf(m)), LayoutOf(m))
    ensures GroupsSifted(old(GroupStageOf(m)), GroupStageOf(m), w)
    ensures Improved(old(m.Tab()), m.Tab()) && gained == old(|m.nodes|) - |m.nodes|
    ensures |m.space| == old(|m.space|) && (Spacious(old(m.Tab())) ==> gained >= 0)
  {
    hide TableOk, DeadSet, RootsKept, Contiguous, Inverse, Tracked, Improved, Injective, SameBlocks, Spacious;
    hide GroupSweep, Falling, Candidates, Counts, Positions, Linked;
    ghost var t, a, l := m.Tab(), GroupStageOf(m), LayoutOf(m);
    var before := |m.nodes|;
    var pos, n := SortGroups(m);
    var k := MakeLinks(pos);
    ghost var k0, subsets := k, SubsetsBy(l, k);
    TrackedBegin(l, k);
    ImprovedRefl(t, m.ranks);
    GroupSweepStart(a, pos, n);
    w := Sweep(pos, n, [a], []);
    GroupSweepFacts(a, a, w);
    var i, total := 0, 0;
    while i < n
      invariant i == |w.turns| <= n <= |pos| && w.n == n && w.order == pos && total * n <= BUDGET
      invariant total + |m.nodes| == Total(Sizes(w.stages, GroupStageSize()))
      invariant m.Core() && DeadSet(m.refs) == {} && Tracked(LayoutOf(m), subsets, k) && GroupSweep(a, GroupStageOf(m), w)
      invariant |k.pos| == |pos| && Improved(t, m.Tab()) && |m.space| == |l.space|
    {
      total := total + |m.nodes|;
      if total * n > BUDGET {
        break;
      }
      SubsetListed(l, k0, i);
      k, w := SiftOneGroup(m, i, k, subsets, t, a, w);
      i := i + 1;
    }
    GroupSweepFacts(a, GroupStageOf(m), w);
    SweepEnd(w, GroupStageSize(), GroupTurnsOf(l));
    TrackedEnd(l, k0, LayoutOf(m), k);
    gained := before - |m.nodes|;
    if Spacious(t) {
      ImprovedGains(t, m.Tab());
    }
  }

  lemma SubsetListed(l: Layout, k: Links, i: nat)
    requires Contiguous(l) && Linked(k) && |k.pos| == |l.groups| && i < |k.pos|
    ensures k.pos[i] < |l.groups| && SubsetsBy(l, k)[i] == SubsetAt(l, k.pos[i])
  {
    LinkBound(k, i);
  }

  lemma SitsAt(l: Layout, subsets: seq<Subset>, k: Links, i: nat)
    requires Tracked(l, subsets, k) && i < |k.pos|
    ensures Contiguous(l) && |k.pos| == |l.groups| == |subsets| && k.pos[i] < |l.groups| && SubsetAt(l, k.pos[i]) == subsets[i]
  {
    assert Sits(l, subsets, k, i);
  }

  method SiftOneGroup(m: Manager, i: nat, k0: Links, ghost subsets: seq<Subset>, ghost t: Table,
                      ghost a: GroupStage, ghost w: Sweep<GroupStage, Turn>)
    returns (k: Links, ghost w': Sweep<GroupStage, Turn>)
    requires m.Core() && DeadSet(m.refs) == {} && Tracked(LayoutOf(m), subsets, k0) && i < |k0.pos|
    requires Improved(t, m.Tab()) && GroupSweep(a, GroupStageOf(m), w) && i == |w.turns| < w.n <= |w.order|
    requires Contiguous(a.l) && |a.l.groups| == |k0.pos| == |subsets|
    requires w.order[i] < |a.l.groups| && subsets[i] == SubsetAt(a.l, w.order[i])
    requires Total(Sizes(w.stages, GroupStageSize())) * w.n <= BUDGET
    modifies m`nodes, m`refs, m`den, m`ext, m`ranks, m`space, m`groups
    ensures m.Core() && DeadSet(m.refs) == {} && Tracked(LayoutOf(m), subsets, k) && |k.pos| == |k0.pos|
    ensures Improved(t, m.Tab()) && |m.space| == old(|m.space|) && GroupSweep(a, GroupStageOf(m), w')
    ensures w'.order == w.order && w'.n == w.n && |w'.turns| == |w.turns| + 1
    ensures Total(Sizes(w'.stages, GroupStageSize())) == Total(Sizes(w.stages, GroupStageSize())) + |m.nodes|
  {
    hide TableOk, DeadSet, RootsKept, Contiguous, Inverse, Tracked, GroupMoves, GroupSweep, Sizes, Total, Shifted, Optimal, Spacious;
    ghost var b := GroupStageOf(m);
    SitsAt(b.l, subsets, k0, i);
    ghost var lo, hi;
    var best;
    k, best, lo, hi := SiftGroup(m, i, k0, subsets);
    ghost var u := Turn(k0.pos[i], best, lo, hi);
    GroupSweepNext(a, b, w, GroupStageOf(m), u);
    w' := w.(stages := w.stages + [GroupStageOf(m)], turns := w.turns + [u]);
    GroupTurnImproves(a.l, w.order[i], b, GroupStageOf(m), u);
    ImprovedTrans(t, b.t, m.Tab());
  }

  lemma GroupTurnImproves(l0: Layout, who: nat, a: GroupStage, b: GroupStage, u: Turn)
    requires GroupTurnOk(l0, who, a, b, u)
    ensures Improved(a.t, b.t)
  {
    hide RootsKept, Spacious, Contiguous, Shifted, GroupMoves;
  }
}
