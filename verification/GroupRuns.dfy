/** Groups over whole runs: variables merged into one group stay in one, and a group that was made
    not reorderable keeps the order of its variables, until a variable is moved by itself or all groups
    are undone. */
module GroupRuns {
  import opened State
  import opened Sift
  import opened Groups
  import opened Reorder
  import opened Commands
  import N = NewVar

  /** v and w are in one group. */
  ghost predicate Together(l: Layout, v: nat, w: nat) {
    Contiguous(l) && exists g {:trigger Block(l, g)} :: 0 <= g < |l.groups| && v in Block(l, g) && w in Block(l, g)
  }

  /** The variables of b, in this order on consecutive ranks, are a group that may not be reordered. */
  ghost predicate Fixed(l: Layout, b: seq<nat>) {
    Contiguous(l) && HasSubset(l, Subset(b, false))
  }

  /** These two take groups apart. */
  predicate Tears(c: Command) {
    c.MoveVar? || c.UndoGroups?
  }

  /** The operation neither takes groups apart, nor merges b with another group, nor makes it
      reorderable. */
  predicate Leaves(c: Command, b: seq<nat>) {
    && !Tears(c)
    && (c.MergeGroups? ==> c.v !in b && c.w !in b)
    && (c.SetReorderable? && c.on ==> c.v !in b)
  }

  /** Group g after a merge. */
  function After(l: Layout, a: nat, b: nat, g: nat): nat
    requires Contiguous(l) && a < b < |l.groups| && g < |l.groups|
  {
    var r := Smaller(l, a, b);
    var j := if g == r then a + b - r else g;
    if j < r then j else j - 1
  }

  lemma MergeKeeps(l: Layout, l': Layout, a: nat, b: nat, g: nat)
    requires Merged(l, l', a, b) && g < |l.groups|
    ensures Contiguous(l) && Contiguous(l') && After(l, a, b, g) < |l'.groups|
    ensures var k := After(l, a, b, g);
      if g == a || g == b then Block(l', k) == Block(l, a) + Block(l, b)
      else Block(l', k) == Block(l, g) && l'.groups[k].orderable == l.groups[g].orderable
  {
    hide Contiguous, Block;
    assert MergedAt(l, l', a, b, Smaller(l, a, b), After(l, a, b, g));
  }

  lemma InsertKeeps(l: Layout, k: nat, g: nat)
    requires Contiguous(l) && k <= |l.groups| && g < |l.groups|
    ensures Contiguous(N.WithGroup(l, k))
    ensures var h := if g < k then g else g + 1;
      h < |N.WithGroup(l, k).groups| && SubsetAt(N.WithGroup(l, k), h) == SubsetAt(l, g)
  {
    hide Contiguous, Block;
    N.InsertGroupBlocks(l, k, if g < k then g else g + 1);
    N.InsertBounds(l, k, g);
  }

  lemma TogetherAt(l: Layout, g: nat, v: nat, w: nat)
    requires Contiguous(l) && g < |l.groups| && v in Block(l, g) && w in Block(l, g)
    ensures Together(l, v, w)
  {
  }

  /** An operation that tears no group apart. */
  lemma TogetherStays(s: Model, c: Command, l': Layout, v: nat, w: nat)
    requires Legal(|s.layout.space|, |s.values|, c) && Arranged(s, c, l') && !Tears(c)
    requires Together(s.layout, v, w)
    ensures Together(l', v, w)
  {
    hide Contiguous, Block;
    var l := s.layout;
    var g :| 0 <= g < |l.groups| && v in Block(l, g) && w in Block(l, g);
    if c.NewVar? {
      var k: nat :| Placed(l, s.values, c.where, k) && l' == N.WithGroup(l, k);
      InsertKeeps(l, k, g);
      TogetherAt(l', if g < k then g else g + 1, v, w);
    } else if c.Ite? || c.Reorder? {
      RegroupedTogether(l, l', g, v, w);
    } else if c.MergeGroups? && s.dynamic {
      var a: nat, b: nat :| MergedVars(l, c.v, c.w, l', a, b);
      if a != b {
        MergeKeeps(l, l', a, b, g);
        TogetherAt(l', After(l, a, b, g), v, w);
      }
    } else if c.SetReorderable? {
      var h: nat :| FlaggedVar(l, c.v, c.on, l', h);
      FlaggedBlocks(l, h, c.on && |Block(l, h)| > 1, g);
      TogetherAt(l', g, v, w);
    }
  }

  lemma RegroupedTogether(l: Layout, l': Layout, g: nat, v: nat, w: nat)
    requires Regrouped(l, l') && g < |l.groups| && v in Block(l, g) && w in Block(l, g)
    ensures Together(l', v, w)
  {
    hide Contiguous, Block;
    assert GroupKept(l, l', g);
    var h :| 0 <= h < |l'.groups| && multiset(Block(l', h)) == multiset(Block(l, g));
    assert v in multiset(Block(l', h)) && w in multiset(Block(l', h));
  }

  lemma FixedAt(l: Layout, g: nat, b: seq<nat>)
    requires Contiguous(l) && g < |l.groups| && Block(l, g) == b && !l.groups[g].orderable
    ensures Fixed(l, b)
  {
    assert SubsetAt(l, g) == Subset(b, false);
  }

  /** An operation that leaves a fixed group as it is. */
  lemma FixedStays(s: Model, c: Command, l': Layout, b: seq<nat>)
    requires Legal(|s.layout.space|, |s.values|, c) && Arranged(s, c, l') && Leaves(c, b)
    requires Fixed(s.layout, b)
    ensures Fixed(l', b)
  {
    hide Contiguous, Block;
    var l := s.layout;
    var g :| 0 <= g < |l.groups| && SubsetAt(l, g) == Subset(b, false);
    if c.NewVar? {
      var k: nat :| Placed(l, s.values, c.where, k) && l' == N.WithGroup(l, k);
      InsertKeeps(l, k, g);
      FixedAt(l', if g < k then g else g + 1, b);
    } else if c.Ite? || c.Reorder? {
      RegroupedFixed(l, l', g, b);
    } else if c.MergeGroups? && s.dynamic {
      var x: nat, y: nat :| MergedVars(l, c.v, c.w, l', x, y);
      if x != y {
        MergeKeeps(l, l', x, y, g);
        FixedAt(l', After(l, x, y, g), b);
      }
    } else if c.SetReorderable? {
      var h: nat :| FlaggedVar(l, c.v, c.on, l', h);
      FlaggedBlocks(l, h, c.on && |Block(l, h)| > 1, g);
      FixedAt(l', g, b);
    }
  }

  lemma RegroupedFixed(l: Layout, l': Layout, g: nat, b: seq<nat>)
    requires Regrouped(l, l') && g < |l.groups| && Block(l, g) == b && !l.groups[g].orderable
    ensures Fixed(l', b)
  {
    hide Contiguous, Block;
    assert GroupKept(l, l', g);
    var h :| 0 <= h < |l'.groups| && l'.groups[h].orderable == l.groups[g].orderable && Block(l', h) == b;
    FixedAt(l', h, b);
  }

  /** Merging brings two variables together, if reordering is on. */
  lemma MergedTogether(s: Model, v: nat, w: nat, l': Layout)
    requires Legal(|s.layout.space|, |s.values|, MergeGroups(v, w)) && Arranged(s, MergeGroups(v, w), l') && s.dynamic
    ensures Together(l', v, w)
  {
    hide Contiguous, Block;
    var l := s.layout;
    var a: nat, b: nat :| MergedVars(l, v, w, l', a, b);
    if a == b {
      TogetherAt(l', a, v, w);
    } else {
      MergeKeeps(l, l', a, b, a);
      TogetherAt(l', After(l, a, b, a), v, w);
    }
  }

  /** Resetting the flag fixes the group of the variable. */
  lemma ResetFixes(s: Model, v: nat, l': Layout) returns (b: seq<nat>)
    requires Legal(|s.layout.space|, |s.values|, SetReorderable(v, false)) && Arranged(s, SetReorderable(v, false), l')
    ensures v in b && Fixed(l', b)
  {
    hide Contiguous, Block;
    var h: nat :| FlaggedVar(s.layout, v, false, l', h);
    FlaggedBlocks(s.layout, h, false, h);
    b := Block(s.layout, h);
    FixedAt(l', h, b);
  }

  /** Over any part of a run without these two, a group is not torn apart. */
  lemma {:induction false} StayTogether(s: Model, cs: seq<Command>, tr: seq<Model>, i: nat, j: nat, v: nat, w: nat)
    requires Trace(s, cs, tr) && i <= j <= |cs| && Together(tr[i].layout, v, w)
    requires forall k {:trigger cs[k]} :: i <= k < j ==> !Tears(cs[k])
    ensures Together(tr[j].layout, v, w)
    decreases j - i
  {
    hide Together, Legal, Arranged;
    if i < j {
      StayTogether(s, cs, tr, i, j - 1, v, w);
      assert !Tears(cs[j - 1]);
      TogetherStays(tr[j - 1], cs[j - 1], tr[j].layout, v, w);
    }
  }

  /** Over any part of a run that leaves it alone, a fixed group keeps its variables on consecutive
      ranks and in their order. */
  lemma {:induction false} StayFixed(s: Model, cs: seq<Command>, tr: seq<Model>, i: nat, j: nat, b: seq<nat>)
    requires Trace(s, cs, tr) && i <= j <= |cs| && Fixed(tr[i].layout, b)
    requires forall k {:trigger cs[k]} :: i <= k < j ==> Leaves(cs[k], b)
    ensures Fixed(tr[j].layout, b)
    decreases j - i
  {
    hide Fixed, Legal, Arranged, Leaves;
    if i < j {
      StayFixed(s, cs, tr, i, j - 1, b);
      assert Leaves(cs[j - 1], b);
      FixedStays(tr[j - 1], cs[j - 1], tr[j].layout, b);
    }
  }

  lemma TwoGroups(space: seq<nat>)
    requires |space| == 3
    ensures var l := Layout(space, [Group(1, false), Group(2, false)]);
      Contiguous(l) && Block(l, 0) == [space[0], space[1]] && Block(l, 1) == [space[2]]
  {
    var l := Layout(space, [Group(1, false), Group(2, false)]);
    assert GroupOk(l, 0) && GroupOk(l, 1);
  }

  lemma VarMoves(groups: seq<Group>)
    ensures MovedVar(Layout([0, 1, 2], groups), 2, 0, Layout([0, 2, 1], groups), 2, 0, 1)
  {
    assert Moved([0, 1, 2], 2, 1) == [0, 2, 1];
  }

  /** Moving a variable by itself does tear a group apart: variable 2 goes between 0 and 1. */
  lemma MoveTears()
    ensures var groups := [Group(1, false), Group(2, false)];
      var l, l' := Layout([0, 1, 2], groups), Layout([0, 2, 1], groups);
      Arranged(Model(l, true, []), MoveVar(2, 0), l') && Together(l, 0, 1) && !Together(l', 0, 1)
  {
    var groups := [Group(1, false), Group(2, false)];
    var l, l' := Layout([0, 1, 2], groups), Layout([0, 2, 1], groups);
    VarMoves(groups);
    TwoGroups(l.space);
    TwoGroups(l'.space);
    hide Block, Contiguous, MovedVar;
    assert MovedVar(l, 2, 0, l', 2, 0, 1);
    assert 0 in Block(l, 0) && 1 in Block(l, 0);
  }
}
