/** Who is sifted when: candidates by how many nodes they have, most first, and only as long as time
    allows. */
module Turns {
  type Weight = nat -> nat

  /** Largest first. */
  predicate Falling(w: Weight, s: seq<nat>) {
    forall i, j {:trigger s[i], s[j]} :: 0 <= i < j < |s| ==> w(s[i]) >= w(s[j])
  }

  function Inserted(w: Weight, s: seq<nat>, x: nat): seq<nat> {
    if s == [] || w(s[0]) <= w(x) then [x] + s else [s[0]] + Inserted(w, s[1..], x)
  }

  lemma {:induction false} InsertedAll(w: Weight, s: seq<nat>, x: nat)
    ensures multiset(Inserted(w, s, x)) == multiset(s) + multiset{x}
  {
    if s != [] && w(s[0]) > w(x) {
      InsertedAll(w, s[1..], x);
      assert s == [s[0]] + s[1..];
    }
  }

  lemma {:induction false} InsertedOk(w: Weight, s: seq<nat>, x: nat)
    requires Falling(w, s)
    ensures Falling(w, Inserted(w, s, x))
  {
    if s != [] && w(s[0]) > w(x) {
      var rest, r := s[1..], Inserted(w, s[1..], x);
      InsertedOk(w, rest, x);
      InsertedAll(w, rest, x);
      forall i | 0 <= i < |r|
        ensures w(r[i]) <= w(s[0])
      {
        Within(r, rest, x, i);
      }
      FallingMore(w, s[0], r);
    } else {
      forall i | 0 <= i < |s|
        ensures w(s[i]) <= w(x)
      {
      }
      FallingMore(w, x, s);
    }
  }

  lemma Within(r: seq<nat>, s: seq<nat>, x: nat, i: nat)
    requires multiset(r) == multiset(s) + multiset{x} && i < |r|
    ensures r[i] in s || r[i] == x
  {
    assert r[i] in multiset(r);
  }

  lemma FallingMore(w: Weight, x: nat, s: seq<nat>)
    requires Falling(w, s) && forall i {:trigger s[i]} :: 0 <= i < |s| ==> w(s[i]) <= w(x)
    ensures Falling(w, [x] + s)
  {
  }

  /** Every list can be sorted. */
  lemma {:induction false} SomeFalling(w: Weight, s: seq<nat>) returns (t: seq<nat>)
    ensures multiset(t) == multiset(s) && Falling(w, t)
  {
    if s == [] {
      t := [];
    } else {
      var last := |s| - 1;
      t := SomeFalling(w, s[..last]);
      InsertedOk(w, t, s[last]);
      InsertedAll(w, t, s[last]);
      t := Inserted(w, t, s[last]);
      assert s == s[..last] + [s[last]];
    }
  }

  /** The first n candidates are those that have nodes; some of the first least may have none. */
  ghost predicate Candidates(w: Weight, s: seq<nat>, n: nat, least: nat) {
    && least <= n <= |s|
    && (forall i {:trigger s[i]} :: n <= i < |s| ==> w(s[i]) == 0)
    && (forall i {:trigger s[i]} :: 0 <= i < n ==> w(s[i]) > 0 || n == least)
  }

  /** Find the last candidate with nodes. */
  method CountCandidates(w: Weight, s: seq<nat>, least: nat) returns (n: nat)
    requires Falling(w, s) && least <= |s|
    ensures Candidates(w, s, n, least)
  {
    n := |s|;
    while n > least && w(s[n - 1]) == 0
      invariant least <= n <= |s|
      invariant forall i {:trigger s[i]} :: n <= i < |s| ==> w(s[i]) == 0
    {
      n := n - 1;
    }
  }

  /** What sifting n candidates may cost in all, in nodes looked at before each turn. */
  const BUDGET := 0x1000_0000

  function Total(sizes: seq<nat>): nat {
    if sizes == [] then 0 else Total(sizes[..|sizes| - 1]) + sizes[|sizes| - 1]
  }

  /** With sizes the table sizes so far: turns were taken as long as candidates and budget lasted. */
  ghost predicate OnBudget(sizes: seq<nat>, n: nat) {
    && 0 < |sizes| <= n + 1
    && (forall i: nat {:trigger sizes[..i]} :: i < |sizes| ==> Total(sizes[..i]) * n <= BUDGET)
  }

  ghost predicate Finished(sizes: seq<nat>, n: nat) {
    OnBudget(sizes, n) && (|sizes| == n + 1 || Total(sizes) * n > BUDGET)
  }

  lemma BudgetStart(size: nat, n: nat)
    ensures OnBudget([size], n)
  {
    assert [size][..0] == [];
  }

  lemma BudgetNext(sizes: seq<nat>, n: nat, size: nat)
    requires OnBudget(sizes, n) && |sizes| <= n && Total(sizes) * n <= BUDGET
    ensures OnBudget(sizes + [size], n) && Total(sizes + [size]) == Total(sizes) + size
  {
    var all := sizes + [size];
    assert all[..|sizes|] == sizes;
    forall i: nat | i < |all|
      ensures Total(all[..i]) * n <= BUDGET
    {
      if i < |sizes| {
        assert all[..i] == sizes[..i];
      }
    }
  }

  /** Who has a turn in which order, for how many there is one if time allows, and what happened: the
      turns taken, and the stages before and after them. */
  datatype Sweep<S, U> = Sweep(order: seq<nat>, n: nat, stages: seq<S>, turns: seq<U>)

  ghost function Sizes<S>(stages: seq<S>, size: S -> nat): seq<nat> {
    seq(|stages|, i requires 0 <= i < |stages| => size(stages[i]))
  }

  /** Between two turns; each turn is a good one of the candidate next in order. */
  ghost predicate Sweeping<S, U>(w: Sweep<S, U>, size: S -> nat, good: (nat, S, S, U) -> bool) {
    && |w.turns| <= w.n <= |w.order| && |w.stages| == |w.turns| + 1
    && (forall i {:trigger w.turns[i]} :: 0 <= i < |w.turns| ==> good(w.order[i], w.stages[i], w.stages[i + 1], w.turns[i]))
    && OnBudget(Sizes(w.stages, size), w.n)
  }

  /** All candidates had their turn, or time ran out. */
  ghost predicate Complete<S, U>(w: Sweep<S, U>, size: S -> nat, good: (nat, S, S, U) -> bool) {
    Sweeping(w, size, good) && Finished(Sizes(w.stages, size), w.n)
  }

  lemma SweepStart<S, U>(order: seq<nat>, n: nat, a: S, size: S -> nat, good: (nat, S, S, U) -> bool)
    requires n <= |order|
    ensures Sweeping(Sweep(order, n, [a], []), size, good)
    ensures Total(Sizes([a], size)) == size(a)
  {
    assert Sizes([a], size) == [size(a)];
    BudgetStart(size(a), n);
    assert [size(a)][..0] == [];
  }

  lemma SweepNext<S, U>(w: Sweep<S, U>, size: S -> nat, good: (nat, S, S, U) -> bool, c: S, u: U)
    requires Sweeping(w, size, good) && |w.turns| < w.n && good(w.order[|w.turns|], w.stages[|w.turns|], c, u)
    requires Total(Sizes(w.stages, size)) * w.n <= BUDGET
    ensures Sweeping(w.(stages := w.stages + [c], turns := w.turns + [u]), size, good)
    ensures Total(Sizes(w.stages + [c], size)) == Total(Sizes(w.stages, size)) + size(c)
  {
    hide OnBudget;
    BudgetNext(Sizes(w.stages, size), w.n, size(c));
    assert Sizes(w.stages + [c], size) == Sizes(w.stages, size) + [size(c)];
  }

  lemma SweepEnd<S, U>(w: Sweep<S, U>, size: S -> nat, good: (nat, S, S, U) -> bool)
    requires Sweeping(w, size, good) && (|w.turns| == w.n || Total(Sizes(w.stages, size)) * w.n > BUDGET)
    ensures Complete(w, size, good)
  {
  }
}
