/** Searching along a line of variable orders for the one with the smallest table. */
module Search {
  import opened RefCount
  import opened State
  import opened Size

  /** A table of a given order. */
  datatype Snapshot = Snapshot(t: Table, ranks: seq<nat>)

  /** The orders a search can visit, by position; each is one move away from its neighbours. */
  type Orders = seq<seq<nat>>

  type Trials = map<nat, Snapshot>

  ghost function Now(m: Manager): Snapshot
    reads m
  {
    Snapshot(m.Tab(), m.ranks)
  }

  /** u was reached from table t, has its roots, and is in the order of position i. */
  ghost predicate Reached(t: Table, orders: Orders, u: Snapshot, i: nat) {
    && i < |orders| && Inverse(u.ranks, orders[i])
    && Clean(u.t, u.ranks) && RootsKept(t, u.t)
  }

  /** x was seen at position i on the way to u. */
  ghost predicate Trial(t: Table, orders: Orders, i: nat, x: Snapshot, u: Table) {
    Reached(t, orders, x, i) && RootsKept(x.t, u)
  }

  ghost predicate AllTrials(t: Table, orders: Orders, tried: Trials, u: Table, size: nat) {
    forall i {:trigger tried[i]} :: i in tried ==> Trial(t, orders, i, tried[i], u) && size <= |tried[i].t.g|
  }

  /** In the middle of a search that began with table t: u is at position i; the positions of
      tried have been visited, and the table was smallest, with size nodes, at position best. */
  ghost predicate Searching(t: Table, orders: Orders, u: Snapshot, i: nat, best: nat, size: nat, tried: Trials) {
    && Reached(t, orders, u, i)
    && AllTrials(t, orders, tried, u.t, size)
    && best in tried && |tried[best].t.g| == size
  }

  lemma SearchBegin(u: Snapshot, orders: Orders, i: nat)
    requires i < |orders| && Inverse(u.ranks, orders[i]) && Clean(u.t, u.ranks)
    ensures Searching(u.t, orders, u, i, i, |u.t.g|, map[i := u])
  {
    RootsRefl(u.t);
  }

  lemma ReachedStep(t: Table, orders: Orders, u: Snapshot, i: nat, u': Snapshot, i': nat)
    requires Reached(t, orders, u, i) && RootsKept(u.t, u'.t)
    requires i' < |orders| && Inverse(u'.ranks, orders[i']) && Clean(u'.t, u'.ranks)
    ensures Reached(t, orders, u', i') && Trial(t, orders, i', u', u'.t)
  {
    RootsTrans(t, u.t, u'.t);
    RootsRefl(u'.t);
  }

  lemma TrialsStep(t: Table, orders: Orders, tried: Trials, u: Table, u': Table, size: nat)
    requires AllTrials(t, orders, tried, u, size) && RootsKept(u, u')
    ensures AllTrials(t, orders, tried, u', size)
  {
    hide Clean, Inverse;
    forall i | i in tried
      ensures Trial(t, orders, i, tried[i], u')
    {
      RootsTrans(tried[i].t, u, u');
    }
  }

  /** The trial of the new state, and the smaller of the two best sizes. */
  lemma SearchStep(t: Table, orders: Orders, u: Snapshot, i: nat, best: nat, size: nat, tried: Trials,
                   u': Snapshot, i': nat)
    requires Searching(t, orders, u, i, best, size, tried) && RootsKept(u.t, u'.t)
    requires i' < |orders| && Inverse(u'.ranks, orders[i']) && Clean(u'.t, u'.ranks)
    ensures Searching(t, orders, u', i', best, size, tried)
    ensures i' !in tried ==>
      if |u'.t.g| < size then Searching(t, orders, u', i', i', |u'.t.g|, tried[i' := u'])
      else Searching(t, orders, u', i', best, size, tried[i' := u'])
  {
    hide Reached, RootsKept, Trial, Clean, Inverse;
    TrialsStep(t, orders, tried, u.t, u'.t, size);
    ReachedStep(t, orders, u, i, u', i');
  }

  lemma SearchFacts(t: Table, orders: Orders, u: Snapshot, i: nat, best: nat, size: nat, tried: Trials)
    requires Searching(t, orders, u, i, best, size, tried)
    ensures i < |orders| && Inverse(u.ranks, orders[i]) && Clean(u.t, u.ranks) && RootsKept(t, u.t)
    ensures best in tried
  {
  }

  lemma SameSpaceSameRanks(ranks: seq<nat>, ranks': seq<nat>, space: seq<nat>)
    requires Inverse(ranks, space) && Inverse(ranks', space)
    ensures ranks == ranks'
  {
    forall v | 0 <= v < |ranks|
      ensures ranks[v] == ranks'[v]
    {
      assert space[ranks[v]] == v;
      assert ranks'[space[ranks[v]]] == ranks[v];
    }
  }

  /** The table as it would be at position i, made from t without freezing a node. */
  ghost predicate Alternative(t: Table, orders: Orders, i: nat, x: Snapshot) {
    Reached(t, orders, x, i) && Frozen(x.t.refs) == Frozen(t.refs)
  }

  /** The size of the table at a given position is determined. */
  lemma AlternativeSize(t: Table, ranks: seq<nat>, orders: Orders, i: nat, x: Snapshot, y: Snapshot)
    requires Alternative(t, orders, i, x) && Alternative(t, orders, i, y) && Clean(t, ranks)
    ensures |x.t.g| == |y.t.g|
  {
    SameSpaceSameRanks(x.ranks, y.ranks, orders[i]);
    forall n | Root(x.t, n) && n in x.t.g
      ensures n in y.t.g && n in x.t.den && n in y.t.den && y.t.den[n] == x.t.den[n]
    {
      assert Root(t, n);
      if t.ext[n] > 0 {
        HeldAlive(t, ranks, n);
      }
    }
    SizeDetermined(x.t, y.t, x.ranks);
  }

  /** The bound on hill climbing: 5 % more than the best size seen. */
  predicate TooLarge(size: nat, best: nat) {
    100 * size > 105 * best
  }

  /** The outcome of a search from position r: no position from lo to hi gives fewer than size
      nodes, and beyond lo and hi lies the end of the range or a table grown too large. */
  ghost predicate Optimal(t: Table, orders: Orders, r: nat, start: nat, end: nat, lo: nat, hi: nat, size: nat) {
    && start <= lo <= r <= hi <= end && size <= |t.g|
    && (forall i, x {:trigger Alternative(t, orders, i, x)} ::
          lo <= i <= hi && Alternative(t, orders, i, x) ==> size <= |x.t.g|)
    && (lo > start ==> forall x {:trigger Alternative(t, orders, lo, x)} ::
          Alternative(t, orders, lo, x) ==> 20 * |x.t.g| > 21 * size)
    && (hi + 1 < end ==> forall x {:trigger Alternative(t, orders, hi, x)} ::
          Alternative(t, orders, hi, x) ==> 20 * |x.t.g| > 21 * size)
  }

  /** The positions of tried are those from lo to hi. */
  ghost predicate Between(tried: Trials, lo: nat, hi: nat) {
    forall i: nat {:trigger i in tried} :: i in tried <==> lo <= i <= hi
  }

  lemma TriedOptimal(t: Table, ranks: seq<nat>, orders: Orders, r: nat, u: Snapshot, i: nat, size: nat,
                     tried: Trials, start: nat, end: nat, lo: nat, hi: nat)
    requires Clean(t, ranks) && Searching(t, orders, u, i, i, size, tried)
    requires Frozen(u.t.refs) == Frozen(t.refs) && Between(tried, lo, hi)
    requires start <= lo <= r <= hi <= end && size <= |t.g|
    requires lo > start ==> TooLarge(|tried[lo].t.g|, size)
    requires hi + 1 < end ==> TooLarge(|tried[hi].t.g|, size)
    ensures Optimal(t, orders, r, start, end, lo, hi, size)
  {
    hide Reached, Clean, RootsKept;
    forall j, x | lo <= j <= hi && Alternative(t, orders, j, x)
      ensures |x.t.g| == |tried[j].t.g|
    {
      TrialIsAlternative(t, orders, j, tried[j], u.t);
      AlternativeSize(t, ranks, orders, j, x, tried[j]);
    }
  }

  lemma TrialIsAlternative(t: Table, orders: Orders, i: nat, x: Snapshot, u: Table)
    requires Trial(t, orders, i, x, u) && Frozen(u.refs) == Frozen(t.refs)
    ensures Alternative(t, orders, i, x)
  {
  }

  /** Back at the best position the table has the best size again. */
  lemma SearchEnd(t: Table, orders: Orders, u: Snapshot, i: nat, size: nat, tried: Trials)
    requires Searching(t, orders, u, i, i, size, tried)
    ensures i < |orders| && Inverse(u.ranks, orders[i]) && Clean(u.t, u.ranks) && RootsKept(t, u.t)
    ensures Frozen(u.t.refs) == Frozen(t.refs) ==> |u.t.g| == size
  {
    if Frozen(u.t.refs) == Frozen(t.refs) {
      SameSpaceSameRanks(tried[i].ranks, u.ranks, orders[i]);
      SizeDetermined(tried[i].t, u.t, u.ranks);
    }
  }
}
