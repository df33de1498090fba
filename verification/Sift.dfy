/** Sifting: moving one variable, or one group of variables, through the order to where the table
    is smallest. */
module Sift {
  import opened Graph
  import opened RefCount
  import opened State
  import opened Swap
  import opened Size
  import opened Search
  import opened Turns

  /** Where the variable on rank k came from, when that of rank r has moved to rank r'. */
  function Origin(r: nat, r': nat, k: nat): nat {
    if k == r' then r else if r <= k < r' then k + 1 else if r' < k <= r then k - 1 else k
  }

  /** The order space with the variable of rank r moved to rank r'. */
  function Moved(space: seq<nat>, r: nat, r': nat): (s: seq<nat>)
    requires r < |space| && r' < |space|
    ensures |s| == |space|
  {
    seq(|space|, k requires 0 <= k < |space| => space[Origin(r, r', k)])
  }

  function Exchanged(space: seq<nat>, r: nat): seq<nat>
    requires r + 1 < |space|
  {
    space[r := space[r + 1]][r + 1 := space[r]]
  }

  /** Exchanging ranks moves the variable one further, down or up. */
  lemma MovedStep(space: seq<nat>, r: nat, i: nat)
    requires r < |space| && i + 1 < |space|
    ensures Exchanged(Moved(space, r, i), i) == Moved(space, r, i + 1)
    ensures Exchanged(Moved(space, r, i + 1), i) == Moved(space, r, i)
  {
  }

  lemma MovedSelf(space: seq<nat>, r: nat)
    requires r < |space|
    ensures Moved(space, r, r) == space
  {
  }

  /** The orders in which the variable of rank r is elsewhere. */
  function Moves(space: seq<nat>, r: nat): Orders
    requires r < |space|
  {
    seq(|space|, i requires 0 <= i < |space| => Moved(space, r, i))
  }

  lemma SwappedClean(t: Table, u: Table, v: nat, w: nat)
    requires Swapped(t, u, v, w)
    ensures DeadSet(u.refs) == {}
  {
  }

  /** The state is that of position i of the search: its order is the one of that position. */
  ghost predicate At(m: Manager, t: Table, orders: Orders, i: nat, best: nat, size: nat, tried: Trials)
    reads m
  {
    && Searching(t, orders, Now(m), i, best, size, tried) && i < |orders| && m.space == orders[i]
    && |m.cache| > 0
  }

  /** One exchange while sifting: the variable on rank i moves to i', one rank further. */
  method Step(m: Manager, i: nat, i': nat, ghost best: nat, ghost size: nat, ghost t: Table,
              ghost space: seq<nat>, ghost r: nat, ghost tried: Trials)
    requires r < |space| && At(m, t, Moves(space, r), i, best, size, tried)
    requires (i' == i + 1 || i == i' + 1) && i' < |space|
    modifies m`nodes, m`refs, m`den, m`ext, m`ranks, m`space
    ensures At(m, t, Moves(space, r), i', best, size, tried)
    ensures i' !in tried ==>
      if |m.nodes| < size then At(m, t, Moves(space, r), i', i', |m.nodes|, tried[i' := Now(m)])
      else At(m, t, Moves(space, r), i', best, size, tried[i' := Now(m)])
  {
    hide TableOk, Swapped, RootsKept, DeadSet, Inverse, Searching, Moved;
    ghost var u, space1 := Now(m), m.space;
    SearchFacts(t, Moves(space, r), u, i, best, size, tried);
    var low := if i' < i then i' else i;
    SwapLevels(m, low);
    SwapKeepsRoots(u.t, u.ranks, m.Tab(), space1[low], space1[low + 1]);
    SwappedClean(u.t, m.Tab(), space1[low], space1[low + 1]);
    MovedStep(space, r, low);
    SearchStep(t, Moves(space, r), u, i, best, size, tried, Now(m), i');
  }

  /** Down as long as the table does not grow too much, and back up. */
  method TryDown(m: Manager, orig: nat, end: nat, ghost t: Table, ghost space: seq<nat>)
    returns (best: nat, size: nat, ghost hi: nat, ghost tried: Trials)
    requires orig <= end < |space|
    requires At(m, t, Moves(space, orig), orig, orig, |m.nodes|, map[orig := Now(m)])
    modifies m`nodes, m`refs, m`den, m`ext, m`ranks, m`space
    ensures At(m, t, Moves(space, orig), orig, best, size, tried)
    ensures orig <= best <= end && orig <= hi <= end && size <= old(|m.nodes|) && Between(tried, orig, hi)
    ensures hi + 1 < end ==> TooLarge(|tried[hi].t.g|, size)
  {
    hide At, Moves;
    var rank := orig;
    best, size, hi, tried := orig, |m.nodes|, orig, map[orig := Now(m)];
    while rank + 1 < end
      invariant orig <= best <= rank <= end && hi == rank && size <= old(|m.nodes|) && Between(tried, orig, hi)
      invariant At(m, t, Moves(space, orig), rank, best, size, tried)
    {
      Step(m, rank, rank + 1, best, size, t, space, orig, tried);
      rank, hi := rank + 1, hi + 1;
      tried := tried[rank := Now(m)];
      if |m.nodes| < size {
        size, best := |m.nodes|, rank;
      } else if TooLarge(|m.nodes|, size) {
        break;
      }
    }
    while rank > orig
      invariant orig <= rank <= end
      invariant At(m, t, Moves(space, orig), rank, best, size, tried)
    {
      rank := rank - 1;
      Step(m, rank + 1, rank, best, size, t, space, orig, tried);
    }
  }

  /** Up as long as the table does not grow too much. */
  method TryUp(m: Manager, orig: nat, start: nat, best0: nat, size0: nat, ghost hi: nat,
               ghost t: Table, ghost space: seq<nat>, ghost tried0: Trials)
    returns (rank: nat, best: nat, size: nat, ghost tried: Trials)
    requires start <= orig <= best0 && orig <= hi && orig < |space| && Between(tried0, orig, hi)
    requires At(m, t, Moves(space, orig), orig, best0, size0, tried0)
    modifies m`nodes, m`refs, m`den, m`ext, m`ranks, m`space
    ensures At(m, t, Moves(space, orig), rank, best, size, tried)
    ensures start <= rank <= orig && rank <= best && (best == best0 || best < orig) && size <= size0
    ensures Between(tried, rank, hi) && hi in tried0 && tried[hi] == tried0[hi]
    ensures rank > start ==> TooLarge(|tried[rank].t.g|, size)
  {
    hide At, Moves;
    rank, best, size, tried := orig, best0, size0, tried0;
    while rank > start
      invariant start <= rank <= orig && rank <= best && (best == best0 || best < orig) && size <= size0
      invariant Between(tried, rank, hi) && tried[hi] == tried0[hi]
      invariant At(m, t, Moves(space, orig), rank, best, size, tried)
    {
      rank := rank - 1;
      Step(m, rank + 1, rank, best, size, t, space, orig, tried);
      tried := tried[rank := Now(m)];
      if |m.nodes| < size {
        size, best := |m.nodes|, rank;
      } else if TooLarge(|m.nodes|, size) {
        break;
      }
    }
  }

  /** The body of the loop of bdd_dynamic_order_group: try the variable of rank orig on every rank
      of the group, giving up a direction on too much growth, and leave it where the table was
      smallest. Unless a node gets frozen on the way, the table ends up with the best size seen. */
  method SiftVar(m: Manager, orig: nat, start: nat, end: nat) returns (best: nat, ghost lo: nat, ghost hi: nat)
    requires m.Core() && DeadSet(m.refs) == {} && start <= orig <= end < |m.space|
    modifies m`nodes, m`refs, m`den, m`ext, m`ranks, m`space
    ensures m.Core() && DeadSet(m.refs) == {}
    ensures start <= best <= end && m.space == Moved(old(m.space), orig, best)
    ensures RootsKept(old(m.Tab()), m.Tab())
    ensures Spacious(old(m.Tab())) || Frozen(m.refs) == old(Frozen(m.refs)) ==>
      Optimal(old(m.Tab()), Moves(old(m.space), orig), orig, start, end, lo, hi, |m.nodes|)
  {
    hide Searching, Moved, DeadSet, TableOk, RootsKept, Inverse, Optimal, Between, Spacious;
    ghost var t, space, ranks := m.Tab(), m.space, m.ranks;
    ghost var orders := Moves(space, orig);
    MovedSelf(space, orig);
    SearchBegin(Now(m), orders, orig);
    var rank, size;
    ghost var tried;
    best, size, hi, tried := TryDown(m, orig, end, t, space);
    rank, best, size, tried := TryUp(m, orig, start, best, size, hi, t, space, tried);
    lo := rank;
    BackDown(m, orig, rank, best, size, t, space, tried);
    SiftEnd(m, t, ranks, space, orig, best, size, tried, start, end, lo, hi);
  }

  /** Back down to the best rank. */
  method BackDown(m: Manager, orig: nat, lo: nat, best: nat, ghost size: nat, ghost t: Table, ghost space: seq<nat>, ghost tried: Trials)
    requires orig < |space| && lo <= best < |space| && At(m, t, Moves(space, orig), lo, best, size, tried)
    modifies m`nodes, m`refs, m`den, m`ext, m`ranks, m`space
    ensures At(m, t, Moves(space, orig), best, best, size, tried)
  {
    hide At, Moves;
    var rank := lo;
    while rank < best
      invariant lo <= rank <= best
      invariant At(m, t, Moves(space, orig), rank, best, size, tried)
    {
      Step(m, rank, rank + 1, best, size, t, space, orig, tried);
      rank := rank + 1;
    }
  }

  lemma SiftEnd(m: Manager, t: Table, ranks: seq<nat>, space: seq<nat>, r: nat, best: nat, size: nat,
                tried: Trials, start: nat, end: nat, lo: nat, hi: nat)
    requires r < |space| && At(m, t, Moves(space, r), best, best, size, tried) && Clean(t, ranks)
    requires Between(tried, lo, hi) && start <= lo <= r <= hi <= end && size <= |t.g|
    requires lo > start ==> TooLarge(|tried[lo].t.g|, size)
    requires hi + 1 < end ==> TooLarge(|tried[hi].t.g|, size)
    ensures m.Core() && DeadSet(m.refs) == {} && RootsKept(t, m.Tab())
    ensures best < |space| && m.space == Moved(space, r, best)
    ensures Spacious(t) || Frozen(m.refs) == Frozen(t.refs) ==>
      Optimal(t, Moves(space, r), r, start, end, lo, hi, |m.nodes|)
  {
    hide TableOk, DeadSet, Inverse, Searching, Optimal, Moved, Spacious;
    SearchEnd(t, Moves(space, r), Now(m), best, size, tried);
    if Frozen(m.refs) == Frozen(t.refs) {
      TriedOptimal(t, ranks, Moves(space, r), r, Now(m), best, size, tried, start, end, lo, hi);
    }
  }

  /** The variables on ranks outside start..end are where they were. */
  ghost predicate SameOutside(space: seq<nat>, space': seq<nat>, start: nat, end: nat) {
    |space'| == |space| && forall r :: 0 <= r < |space| && !(start <= r <= end) ==> space'[r] == space[r]
  }

  /** A variable of the group stays in the group. */
  lemma StaysWithin(space0: seq<nat>, ranks0: seq<nat>, space: seq<nat>, ranks: seq<nat>, start: nat, end: nat, v: nat)
    requires Inverse(ranks0, space0) && Inverse(ranks, space) && SameOutside(space0, space, start, end)
    requires start <= end < |space0| && v in space0[start..end + 1]
    ensures v < |ranks| && start <= ranks[v] <= end
  {
    var i :| start <= i <= end && space0[i] == v;
    assert ranks0[space0[i]] == i;
    assert v < |ranks| && space[ranks[v]] == v;
    assert ranks0[space0[ranks[v]]] == ranks[v];
  }

  /** What reordering promises: no function of a root changes, and unless a node gets frozen the
      table does not grow. */
  ghost predicate Improved(s: Table, t: Table) {
    RootsKept(s, t) && (Frozen(t.refs) == Frozen(s.refs) ==> |t.g| <= |s.g|)
  }

  lemma ImprovedTrans(s: Table, t: Table, u: Table)
    requires Improved(s, t) && Improved(t, u)
    ensures Improved(s, u)
  {
    RootsTrans(s, t, u);
    assert Frozen(u.refs) == Frozen(s.refs) ==> Frozen(t.refs) == Frozen(s.refs);
  }

  /** With room for all counts a reordering never loses. */
  lemma ImprovedGains(s: Table, t: Table)
    requires Improved(s, t) && Spacious(s)
    ensures FrozenSame(s.refs, t.refs) && |t.g| <= |s.g|
  {
    hide Spacious, Preserves;
  }

  lemma ImprovedRefl(t: Table, ranks: seq<nat>)
    requires TableOk(t, ranks)
    ensures Improved(t, t)
  {
    RootsRefl(t);
  }

  /** A table and its order while variables are sifted. */
  datatype Stage = Stage(t: Table, space: seq<nat>)

  ghost function StageOf(m: Manager): Stage
    reads m
  {
    Stage(m.Tab(), m.space)
  }

  /** A variable was sifted from rank r to rank best, having been on ranks lo to hi. */
  datatype Turn = Turn(r: nat, best: nat, lo: nat, hi: nat)

  ghost predicate TurnOk(v: nat, a: Stage, b: Stage, u: Turn, start: nat, end: nat) {
    && start <= u.r <= end < |a.space| && start <= u.best <= end && a.space[u.r] == v
    && b.space == Moved(a.space, u.r, u.best) && RootsKept(a.t, b.t)
    && (Spacious(a.t) || Frozen(b.t.refs) == Frozen(a.t.refs) ==>
          Optimal(a.t, Moves(a.space, u.r), u.r, start, end, u.lo, u.hi, |b.t.g|))
  }

  ghost function TurnsOf(start: nat, end: nat): (nat, Stage, Stage, Turn) -> bool {
    (v: nat, a: Stage, b: Stage, u: Turn) => TurnOk(v, a, b, u, start, end)
  }

  ghost function StageSize(): Stage -> nat {
    (a: Stage) => |a.t.g|
  }

  /** How many nodes there are for variable v. */
  function Items(g: Nodes, v: nat): nat {
    |set n | n in g && g[n].varid == v|
  }

  function ByItems(g: Nodes): Weight {
    v => Items(g, v)
  }

  /** The sweep over ranks start to end has led from stage a to stage b. */
  ghost predicate VarSweep(a: Stage, b: Stage, start: nat, end: nat, w: Sweep<Stage, Turn>) {
    && start < end < |a.space|
    && multiset(w.order) == multiset(a.space[start..end + 1]) && Falling(ByItems(a.t.g), w.order)
    && Candidates(ByItems(a.t.g), w.order, w.n, 1)
    && Sweeping(w, StageSize(), TurnsOf(start, end)) && w.stages[0] == a && w.stages[|w.turns|] == b
  }

  /** What a sweep leaves: the ranks outside are as they were, and those inside have the same variables. */
  lemma SweepWithin(a: Stage, b: Stage, start: nat, end: nat, w: Sweep<Stage, Turn>)
    requires VarSweep(a, b, start, end, w)
    ensures SameOutside(a.space, b.space, start, end)
    ensures multiset(b.space[start..end + 1]) == multiset(a.space[start..end + 1])
  {
    StagesWithin(a, start, end, w, |w.turns|);
  }

  lemma {:induction false} StagesWithin(a: Stage, start: nat, end: nat, w: Sweep<Stage, Turn>, k: nat)
    requires start < end < |a.space| && Sweeping(w, StageSize(), TurnsOf(start, end)) && k <= |w.turns| && w.stages[0] == a
    ensures SameOutside(a.space, w.stages[k].space, start, end)
    ensures multiset(w.stages[k].space[start..end + 1]) == multiset(a.space[start..end + 1])
  {
    if k > 0 {
      StagesWithin(a, start, end, w, k - 1);
      var u, x := w.turns[k - 1], w.stages[k - 1].space;
      TurnMoves(w.order[k - 1], w.stages[k - 1], w.stages[k], u, start, end);
      MovedAllWithin(a.space, x, u.r, start, end);
      MovedBlock(x, u.r, u.best, start, end);
    }
  }

  lemma MovedAllWithin(space0: seq<nat>, space: seq<nat>, r: nat, start: nat, end: nat)
    requires SameOutside(space0, space, start, end) && start <= r <= end < |space|
    ensures forall i: nat :: start <= i <= end ==> SameOutside(space0, Moved(space, r, i), start, end)
  {
  }

  lemma TurnMoves(v: nat, a: Stage, b: Stage, u: Turn, start: nat, end: nat)
    requires TurnOk(v, a, b, u, start, end)
    ensures start <= u.r <= end < |a.space| && start <= u.best <= end && b.space == Moved(a.space, u.r, u.best)
  {
  }

  lemma MovedBlock(space: seq<nat>, r: nat, r': nat, start: nat, end: nat)
    requires start <= r <= end < |space| && start <= r' <= end
    ensures multiset(Moved(space, r, r')[start..end + 1]) == multiset(space[start..end + 1])
  {
    hide Moved;
    if r <= r' {
      BlockDown(space, r, r', start, end, space[start..end + 1], Moved(space, r, r')[start..end + 1]);
    } else {
      BlockUp(space, r, r', start, end, space[start..end + 1], Moved(space, r, r')[start..end + 1]);
    }
  }

  lemma BlockDown(space: seq<nat>, r: nat, r': nat, start: nat, end: nat, s: seq<nat>, t: seq<nat>)
    requires start <= r <= r' <= end < |space| && s == space[start..end + 1] && t == Moved(space, r, r')[start..end + 1]
    ensures multiset(t) == multiset(s)
  {
    hide Moved;
    MovedDown(space, r, r', start, end);
    Cut(space, start, r, r + 1, r' + 1, end + 1);
    SameBag(space[start..r], [space[r]], space[r + 1..r' + 1], space[r' + 1..end + 1], s, t);
  }

  lemma BlockUp(space: seq<nat>, r: nat, r': nat, start: nat, end: nat, s: seq<nat>, t: seq<nat>)
    requires start <= r' < r <= end < |space| && s == space[start..end + 1] && t == Moved(space, r, r')[start..end + 1]
    ensures multiset(t) == multiset(s)
  {
    hide Moved;
    MovedUp(space, r, r', start, end);
    Cut(space, start, r', r, r + 1, end + 1);
    SameBag(space[start..r'], [space[r]], space[r'..r], space[r + 1..end + 1], t, s);
  }

  lemma Cut(space: seq<nat>, i: nat, j: nat, k: nat, l: nat, n: nat)
    requires i <= j <= k <= l <= n <= |space|
    ensures space[i..n] == space[i..j] + space[j..k] + space[k..l] + space[l..n]
    ensures k == j + 1 ==> space[j..k] == [space[j]]
    ensures l == k + 1 ==> space[k..l] == [space[k]]
  {
  }

  lemma SameBag(a: seq<nat>, x: seq<nat>, b: seq<nat>, c: seq<nat>, s: seq<nat>, t: seq<nat>)
    requires s == a + x + b + c && t == a + b + x + c
    ensures multiset(s) == multiset(t)
  {
  }

  lemma MovedDown(space: seq<nat>, r: nat, r': nat, start: nat, end: nat)
    requires start <= r <= r' <= end < |space|
    ensures Moved(space, r, r')[start..end + 1] == space[start..r] + space[r + 1..r' + 1] + [space[r]] + space[r' + 1..end + 1]
  {
    var m := Moved(space, r, r');
    assert m[start..end + 1] == m[start..r] + m[r..r'] + m[r'..r' + 1] + m[r' + 1..end + 1];
    assert m[start..r] == space[start..r];
    assert m[r..r'] == space[r + 1..r' + 1];
    assert m[r' + 1..end + 1] == space[r' + 1..end + 1];
  }

  lemma MovedUp(space: seq<nat>, r: nat, r': nat, start: nat, end: nat)
    requires start <= r' < r <= end < |space|
    ensures Moved(space, r, r')[start..end + 1] == space[start..r'] + [space[r]] + space[r'..r] + space[r + 1..end + 1]
  {
    var m := Moved(space, r, r');
    assert m[start..end + 1] == m[start..r'] + m[r'..r' + 1] + m[r' + 1..r + 1] + m[r + 1..end + 1];
    assert m[start..r'] == space[start..r'];
    assert m[r' + 1..r + 1] == space[r'..r];
    assert m[r + 1..end + 1] == space[r + 1..end + 1];
  }

  lemma TurnImproves(v: nat, a: Stage, b: Stage, u: Turn, start: nat, end: nat)
    requires TurnOk(v, a, b, u, start, end)
    ensures Improved(a.t, b.t)
  {
    hide RootsKept, Spacious;
  }

  lemma SweepFacts(a: Stage, b: Stage, start: nat, end: nat, w: Sweep<Stage, Turn>)
    requires VarSweep(a, b, start, end, w)
    ensures start < end < |a.space| && multiset(w.order) == multiset(a.space[start..end + 1])
    ensures Sweeping(w, StageSize(), TurnsOf(start, end)) && w.stages[|w.turns|] == b
  {
  }

  lemma VarSweepStart(a: Stage, start: nat, end: nat, order: seq<nat>, n: nat)
    requires start < end < |a.space| && multiset(order) == multiset(a.space[start..end + 1])
    requires Falling(ByItems(a.t.g), order) && Candidates(ByItems(a.t.g), order, n, 1)
    ensures VarSweep(a, a, start, end, Sweep(order, n, [a], [])) && Total(Sizes([a], StageSize())) == |a.t.g|
  {
    SweepStart(order, n, a, StageSize(), TurnsOf(start, end));
  }

  lemma VarSweepNext(a: Stage, b: Stage, start: nat, end: nat, w: Sweep<Stage, Turn>, c: Stage, u: Turn)
    requires VarSweep(a, b, start, end, w) && |w.turns| < w.n && TurnOk(w.order[|w.turns|], b, c, u, start, end)
    requires Total(Sizes(w.stages, StageSize())) * w.n <= BUDGET
    ensures VarSweep(a, c, start, end, w.(stages := w.stages + [c], turns := w.turns + [u]))
    ensures Total(Sizes(w.stages + [c], StageSize())) == Total(Sizes(w.stages, StageSize())) + |c.t.g|
  {
    hide TurnOk, Sweeping, Falling, Candidates;
    SweepFacts(a, b, start, end, w);
    SweepNext(w, StageSize(), TurnsOf(start, end), c, u);
  }

  /** The next variable has its turn. */
  method SiftOne(m: Manager, v: nat, start: nat, end: nat, ghost t: Table, ghost a: Stage, ghost ranks: seq<nat>, ghost w: Sweep<Stage, Turn>)
    returns (ghost w': Sweep<Stage, Turn>)
    requires m.Core() && DeadSet(m.refs) == {} && VarSweep(a, StageOf(m), start, end, w) && Improved(t, m.Tab())
    requires Inverse(ranks, a.space) && |w.turns| < w.n <= |w.order| && v == w.order[|w.turns|]
    requires Total(Sizes(w.stages, StageSize())) * w.n <= BUDGET
    modifies m`nodes, m`refs, m`den, m`ext, m`ranks, m`space
    ensures m.Core() && DeadSet(m.refs) == {} && VarSweep(a, StageOf(m), start, end, w') && Improved(t, m.Tab())
    ensures w'.order == w.order && w'.n == w.n && |w'.turns| == |w.turns| + 1
    ensures Total(Sizes(w'.stages, StageSize())) == Total(Sizes(w.stages, StageSize())) + |m.nodes|
  {
    hide DeadSet, TableOk, RootsKept, Inverse, Moved, SameOutside, Moves, VarSweep, Optimal, Spacious, Sizes, Total;
    ghost var b := StageOf(m);
    SweepFacts(a, b, start, end, w);
    SweepWithin(a, b, start, end, w);
    assert v in multiset(w.order);
    StaysWithin(a.space, ranks, m.space, m.ranks, start, end, v);
    SpaceOfRank(m.ranks, m.space, v);
    SameLength(a.space, m.space, start, end);
    var r := m.ranks[v];
    var best;
    ghost var lo, hi;
    best, lo, hi := SiftVar(m, r, start, end);
    ghost var u := Turn(r, best, lo, hi);
    VarSweepNext(a, b, start, end, w, StageOf(m), u);
    w' := w.(stages := w.stages + [StageOf(m)], turns := w.turns + [u]);
    TurnImproves(v, b, StageOf(m), u, start, end);
    ImprovedTrans(t, b.t, m.Tab());
  }

  lemma SpaceOfRank(ranks: seq<nat>, space: seq<nat>, v: nat)
    requires Inverse(ranks, space) && v < |ranks|
    ensures ranks[v] < |space| && space[ranks[v]] == v
  {
  }

  lemma SameLength(space: seq<nat>, space': seq<nat>, start: nat, end: nat)
    requires SameOutside(space, space', start, end)
    ensures |space'| == |space|
  {
  }

  /** The variables of the ranks by how many nodes they have. */
  method SortVars(m: Manager, start: nat, end: nat) returns (order: seq<nat>, n: nat)
    requires start < end < |m.space|
    ensures multiset(order) == multiset(m.space[start..end + 1])
    ensures Falling(ByItems(m.nodes), order) && Candidates(ByItems(m.nodes), order, n, 1)
  {
    hide Falling, Candidates;
    var g, vars := m.nodes, m.space[start..end + 1];
    ghost var some := SomeFalling(ByItems(g), vars);
    order :| multiset(order) == multiset(vars) && Falling(ByItems(g), order);
    assert |multiset(order)| == |multiset(vars)|;
    n := CountCandidates(ByItems(g), order, 1);
  }

  /** bdd_dynamic_order_group: sift the variables of ranks start to end within these ranks, those with
      the most nodes first, stopping when enough time is spent. */
  method OrderGroup(m: Manager, start: nat, end: nat) returns (gained: int, ghost w: Sweep<Stage, Turn>)
    requires m.Core() && DeadSet(m.refs) == {} && start <= end < |m.space|
    modifies m`nodes, m`refs, m`den, m`ext, m`ranks, m`space
    ensures m.Core() && DeadSet(m.refs) == {}
    ensures GroupSifted(old(StageOf(m)), StageOf(m), start, end, w)
    ensures Improved(old(m.Tab()), m.Tab()) && gained == old(|m.nodes|) - |m.nodes|
    ensures Spacious(old(m.Tab())) ==> gained >= 0
  {
    hide DeadSet, TableOk, RootsKept, Inverse, Moved, SameOutside, Improved, Spacious, VarSweep, OnBudget, TurnOk;
    ghost var t, a, ranks := m.Tab(), StageOf(m), m.ranks;
    var before := |m.nodes|;
    ImprovedRefl(t, ranks);
    w := Sweep([], 0, [], []);
    if start == end {
      return 0, w;
    }
    var order, n := SortVars(m, start, end);
    VarSweepStart(a, start, end, order, n);
    w := Sweep(order, n, [a], []);
    var i, total := 0, 0;
    while i < n
      invariant i == |w.turns| <= n <= |order| && w.n == n && w.order == order && total * n <= BUDGET
      invariant total + |m.nodes| == Total(Sizes(w.stages, StageSize()))
      invariant m.Core() && DeadSet(m.refs) == {} && VarSweep(a, StageOf(m), start, end, w) && Improved(t, m.Tab())
    {
      total := total + |m.nodes|;
      if total * n > BUDGET {
        break;
      }
      w := SiftOne(m, order[i], start, end, t, a, ranks, w);
      i := i + 1;
    }
    SweepFacts(a, StageOf(m), start, end, w);
    SweepEnd(w, StageSize(), TurnsOf(start, end));
    gained := before - |m.nodes|;
    if Spacious(t) {
      ImprovedGains(t, m.Tab());
    }
  }

  /** What bdd_dynamic_order_group does to a group of more than one variable: a complete sweep. */
  ghost predicate GroupSifted(a: Stage, b: Stage, start: nat, end: nat, w: Sweep<Stage, Turn>) {
    if start == end then b == a
    else VarSweep(a, b, start, end, w) && Complete(w, StageSize(), TurnsOf(start, end))
  }

  lemma GroupSiftedWithin(a: Stage, b: Stage, start: nat, end: nat, w: Sweep<Stage, Turn>)
    requires GroupSifted(a, b, start, end, w) && start <= end < |a.space|
    ensures SameOutside(a.space, b.space, start, end)
    ensures multiset(b.space[start..end + 1]) == multiset(a.space[start..end + 1])
  {
    if start < end {
      SweepWithin(a, b, start, end, w);
    }
  }
}
