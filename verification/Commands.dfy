/** The operations of a client, and what they do to the functions that handles stand for and to the
    order and the groups of the variables. */
module Commands {
  import opened Sets
  import opened Functions
  import opened Graph
  import opened Exists
  import opened Sift
  import opened Groups
  import opened Reorder
  import Q = Quantify
  import N = NewVar
  import C = Compose
  import D = Nearest
  import Y = Simplify

  /** Where a new variable goes. */
  datatype Where = Last | First | Behind(i: nat) | Ahead(i: nat)

  /** One operation of a client; handles are numbered in the order of their creation. */
  datatype Command =
    | NewVar(where: Where)
    | Ite(i: nat, j: nat, k: nat)
    | Quantify(existential: bool, i: nat, x: set<nat>)
    | AndSmooth(i: nat, j: nat, x: set<nat>)
    | Constrain(i: nat, j: nat)
    | Restrict(i: nat, j: nat)
    | Substitute(i: nat, xs: seq<nat>, js: seq<nat>)
    | Drop(i: nat)
    | Gc
    | Reorder
    | MoveVar(v: nat, w: nat)
    | MergeGroups(v: nat, w: nat)
    | SetReorderable(v: nat, on: bool)
    | SetDynamic(on: bool)
    | UndoGroups

  /** What a handle stands for: a function, or nothing (BDD_VOID). */
  datatype Value = Gone | Value(f: Fn)

  /** The order and the groups of the variables, whether reordering is on, and the handles. */
  datatype Model = Model(layout: Layout, dynamic: bool, values: seq<Value>)

  /** A client may name existing handles and variables only, and there are ids for so many variables. */
  ghost predicate Legal(vars: nat, n: nat, c: Command) {
    match c
    case NewVar(w) => vars < TERMID && (w.Behind? || w.Ahead? ==> w.i < n)
    case Ite(i, j, k) => i < n && j < n && k < n
    case Quantify(_, i, x) => i < n && Known(x, vars)
    case AndSmooth(i, j, x) => i < n && j < n && Known(x, vars)
    case Constrain(i, j) => i < n && j < n
    case Restrict(i, j) => i < n && j < n
    case Substitute(i, xs, js) =>
      && i < n && |xs| == |js| && Distinct(xs)
      && (forall k {:trigger xs[k]} :: 0 <= k < |xs| ==> xs[k] < vars)
      && (forall k {:trigger js[k]} :: 0 <= k < |js| ==> js[k] < n)
    case Drop(i) => i < n
    case Gc => true
    case Reorder => true
    case MoveVar(v, w) => v < vars && w < vars
    case MergeGroups(v, w) => v < vars && w < vars
    case SetReorderable(v, _) => v < vars
    case SetDynamic(_) => true
    case UndoGroups => true
  }

  predicate Known(x: set<nat>, vars: nat) {
    forall v: nat {:trigger v in x} :: v in x ==> v < vars
  }

  /** The outcome of these two depends on the order of the variables. */
  predicate Chooses(c: Command) {
    c.Constrain? || c.Restrict?
  }

  /** These change no handle. */
  predicate Silent(c: Command) {
    c.Gc? || c.Reorder? || c.MoveVar? || c.MergeGroups? || c.SetReorderable? || c.SetDynamic? || c.UndoGroups?
  }

  /** The number of variables and of handles after a command. */
  function VarsAfter(vars: nat, c: Command): nat {
    if c.NewVar? then vars + 1 else vars
  }

  function HandlesAfter(n: nat, c: Command): nat {
    if c.Drop? || Silent(c) then n else n + 1
  }

  ghost function Literal(v: nat): Fn {
    Shannon(v, True(), iset{})
  }

  /** What is to stand for each variable; a handle without function leaves its variable alone. */
  ghost function Replacement(vs: seq<Value>, xs: seq<nat>, js: seq<nat>): C.Substitution
    requires Distinct(xs) && |xs| == |js|
    requires forall k {:trigger js[k]} :: 0 <= k < |js| ==> js[k] < |vs|
  {
    map k | 0 <= k < |xs| && vs[js[k]].Value? :: xs[k] := vs[js[k]].f
  }

  /** The handles after an operation whose outcome does not depend on the order. */
  ghost function Plain(vars: nat, vs: seq<Value>, c: Command): seq<Value>
    requires Legal(vars, |vs|, c) && !Chooses(c)
  {
    match c
    case NewVar(_) => vs + [Value(Literal(vars))]
    case Ite(i, j, k) =>
      vs + [if vs[i].Gone? || vs[j].Gone? || vs[k].Gone? then Gone else Value(Functions.Ite(vs[i].f, vs[j].f, vs[k].f))]
    case Quantify(e, i, x) => vs + [if vs[i].Gone? then Gone else Value(Q.Quantified(e, vs[i].f, x))]
    case AndSmooth(i, j, x) =>
      vs + [if vs[i].Gone? || vs[j].Gone? then Gone else Value(Smooth(vs[i].f * vs[j].f, x))]
    case Substitute(i, xs, js) => vs + [if vs[i].Gone? then Gone else Value(C.Subst(vs[i].f, Replacement(vs, xs, js)))]
    case Drop(i) => vs[i := Gone]
    case _ => vs
  }

  /** The handles after an operation: f constrained or restricted to c under the order of the variables
      at that time, nothing if c is false. */
  ghost function Results(space: seq<nat>, vs: seq<Value>, c: Command): seq<Value>
    requires Legal(|space|, |vs|, c)
  {
    match c
    case Constrain(i, j) =>
      vs + [if vs[i].Gone? || vs[j].Gone? || vs[j].f == iset{} then Gone else Value(D.Constrain(space, vs[i].f, vs[j].f))]
    case Restrict(i, j) =>
      vs + [if vs[i].Gone? || vs[j].Gone? || vs[j].f == iset{} then Gone else Value(Y.Restrict(space, vs[i].f, vs[j].f))]
    case _ => Plain(|space|, vs, c)
  }

  /** The variable on rank r is the first that f depends on. */
  ghost predicate TopOf(space: seq<nat>, f: Fn, r: nat) {
    && r < |space| && !Indep(f, space[r])
    && (forall q {:trigger space[q]} :: 0 <= q < r ==> Indep(f, space[q]))
  }

  ghost predicate IsConstant(f: Fn) {
    f == True() || f == iset{}
  }

  /** A new variable is put in front of group k. */
  ghost predicate Placed(l: Layout, vs: seq<Value>, w: Where, k: nat)
    requires w.Behind? || w.Ahead? ==> w.i < |vs|
  {
    && Contiguous(l) && k <= |l.groups|
    && match w
       case Last => k == |l.groups|
       case First => k == 0
       case Behind(i) =>
         if vs[i].Gone? then k == |l.groups|
         else if IsConstant(vs[i].f) then k == 0
         else 0 < k && exists r: nat {:trigger TopOf(l.space, vs[i].f, r)} ::
           TopOf(l.space, vs[i].f, r) && l.space[r] in Block(l, k - 1)
       case Ahead(i) =>
         if vs[i].Gone? then k == |l.groups|
         else if IsConstant(vs[i].f) then k == 0
         else exists r: nat {:trigger TopOf(l.space, vs[i].f, r)} ::
           && TopOf(l.space, vs[i].f, r)
           && if r == 0 then k == 0 else 0 < k && l.space[r - 1] in Block(l, k - 1)
  }

  ghost predicate MovedVar(l: Layout, v: nat, w: nat, l': Layout, r: nat, t: nat, r': nat) {
    && r < |l.space| && l.space[r] == v && t < |l.space| && l.space[t] == w && r' < |l.space| && Going(r, t, r')
    && l' == Layout(Moved(l.space, r, r'), l.groups)
  }

  ghost predicate MergedVars(l: Layout, v: nat, w: nat, l': Layout, a: nat, b: nat) {
    GroupsOf(l, v, w, a, b) && if a == b then l' == l else Merged(l, l', a, b)
  }

  ghost predicate FlaggedVar(l: Layout, v: nat, on: bool, l': Layout, g: nat) {
    Contiguous(l) && g < |l.groups| && v in Block(l, g) && l' == Flagged(l, g, on && |Block(l, g)| > 1)
  }

  /** What an operation may do to order and groups. */
  ghost predicate Arranged(s: Model, c: Command, l': Layout)
    requires Legal(|s.layout.space|, |s.values|, c)
  {
    var l := s.layout;
    match c
    case NewVar(w) => exists k: nat {:trigger Placed(l, s.values, w, k)} :: Placed(l, s.values, w, k) && l' == N.WithGroup(l, k)
    case Ite(_, _, _) => Regrouped(l, l') && (!s.dynamic ==> l' == l)
    case Reorder => Regrouped(l, l') && (!s.dynamic ==> l' == l)
    case MoveVar(v, w) =>
      if s.dynamic then exists r: nat, t: nat, r': nat {:trigger MovedVar(l, v, w, l', r, t, r')} :: MovedVar(l, v, w, l', r, t, r')
      else l' == l
    case MergeGroups(v, w) =>
      if s.dynamic then exists a: nat, b: nat {:trigger MergedVars(l, v, w, l', a, b)} :: MergedVars(l, v, w, l', a, b)
      else l' == l
    case UndoGroups => l' == Layout(l.space, Singles(|l.space|))
    case SetReorderable(v, on) => exists g: nat {:trigger FlaggedVar(l, v, on, l', g)} :: FlaggedVar(l, v, on, l', g)
    case _ => l' == l
  }

  ghost predicate Steps(s: Model, c: Command, s': Model)
    requires Legal(|s.layout.space|, |s.values|, c)
  {
    && s'.values == Results(s.layout.space, s.values, c) && Arranged(s, c, s'.layout)
    && s'.dynamic == if c.SetDynamic? then c.on else s.dynamic
  }

  lemma PlainSize(vars: nat, vs: seq<Value>, c: Command)
    requires Legal(vars, |vs|, c) && !Chooses(c)
    ensures |Plain(vars, vs, c)| == HandlesAfter(|vs|, c)
  {
  }

  lemma ArrangedSize(s: Model, c: Command, l': Layout)
    requires Legal(|s.layout.space|, |s.values|, c) && Arranged(s, c, l')
    ensures |l'.space| == VarsAfter(|s.layout.space|, c)
  {
    hide Block, TopOf, IsConstant, Regrouped, Merged, Contiguous;
    var l := s.layout;
    match c
    case NewVar(w) =>
      var k: nat :| Placed(l, s.values, w, k) && l' == N.WithGroup(l, k);
      WithGroupSize(l, s.values, w, k);
    case Ite(_, _, _) => RegroupedSize(l, l');
    case Reorder => RegroupedSize(l, l');
    case MergeGroups(v, w) => MergedSize(s, v, w, l');
    case _ =>
  }

  lemma WithGroupSize(l: Layout, vs: seq<Value>, w: Where, k: nat)
    requires (w.Behind? || w.Ahead? ==> w.i < |vs|) && Placed(l, vs, w, k)
    ensures Contiguous(l) && k <= |l.groups| && |N.WithGroup(l, k).space| == |l.space| + 1
  {
    N.FirstInside(l, k);
  }

  lemma RegroupedSize(l: Layout, l': Layout)
    requires Regrouped(l, l')
    ensures |l'.space| == |l.space|
  {
  }

  lemma MergedSize(s: Model, v: nat, w: nat, l': Layout)
    requires v < |s.layout.space| && w < |s.layout.space| && Arranged(s, MergeGroups(v, w), l')
    ensures |l'.space| == |s.layout.space|
  {
    hide Block, Contiguous, GroupsOf;
    if s.dynamic {
      var a: nat, b: nat :| MergedVars(s.layout, v, w, l', a, b);
    }
  }

  lemma StepsSize(s: Model, c: Command, s': Model)
    requires Legal(|s.layout.space|, |s.values|, c) && Steps(s, c, s')
    ensures |s'.layout.space| == VarsAfter(|s.layout.space|, c) && |s'.values| == HandlesAfter(|s.values|, c)
  {
    hide Arranged, Plain, Legal;
    ArrangedSize(s, c, s'.layout);
    if !Chooses(c) {
      PlainSize(|s.layout.space|, s.values, c);
    }
  }

  /** A sequence of operations in which each is legal when its turn comes. */
  ghost predicate LegalRun(vars: nat, n: nat, cs: seq<Command>)
    decreases |cs|
  {
    cs == [] || (Legal(vars, n, cs[0]) && LegalRun(VarsAfter(vars, cs[0]), HandlesAfter(n, cs[0]), cs[1..]))
  }

  /** tr is a run of the commands on models, from s on. */
  ghost predicate Trace(s: Model, cs: seq<Command>, tr: seq<Model>) {
    && |tr| == |cs| + 1 && tr[0] == s
    && (forall k {:trigger cs[k]} :: 0 <= k < |cs| ==>
          Legal(|tr[k].layout.space|, |tr[k].values|, cs[k]) && Steps(tr[k], cs[k], tr[k + 1]))
  }

  lemma TraceNext(s: Model, cs: seq<Command>, n: nat, tr: seq<Model>, s': Model)
    requires n < |cs| && Trace(s, cs[..n], tr)
    requires Legal(|tr[n].layout.space|, |tr[n].values|, cs[n]) && Steps(tr[n], cs[n], s')
    ensures Trace(s, cs[..n + 1], tr + [s'])
  {
    hide Steps, Legal;
    var tr' := tr + [s'];
    forall k | 0 <= k < n + 1
      ensures Legal(|tr'[k].layout.space|, |tr'[k].values|, cs[k]) && Steps(tr'[k], cs[k], tr'[k + 1])
    {
      if k < n {
        assert cs[..n][k] == cs[k];
      }
    }
  }

  lemma LegalNext(vars: nat, handles: nat, cs: seq<Command>, n: nat)
    requires n < |cs| && LegalRun(vars, handles, cs[n..])
    ensures Legal(vars, handles, cs[n]) && LegalRun(VarsAfter(vars, cs[n]), HandlesAfter(handles, cs[n]), cs[n + 1..])
  {
    assert cs[n..][0] == cs[n] && cs[n..][1..] == cs[n + 1..];
  }

  lemma TraceSize(s: Model, cs: seq<Command>, tr: seq<Model>)
    requires Trace(s, cs, tr)
    ensures |tr| == |cs| + 1
  {
  }

  predicate NoChoice(cs: seq<Command>) {
    forall k {:trigger cs[k]} :: 0 <= k < |cs| ==> !Chooses(cs[k])
  }

  /** What the handles stand for after a run without constrain and restrict. */
  ghost function Meaning(vars: nat, vs: seq<Value>, cs: seq<Command>): seq<Value>
    requires LegalRun(vars, |vs|, cs) && NoChoice(cs)
    decreases |cs|
  {
    if cs == [] then vs
    else
      PlainSize(vars, vs, cs[0]);
      Meaning(VarsAfter(vars, cs[0]), Plain(vars, vs, cs[0]), cs[1..])
  }

  /** Without constrain and restrict no handle depends on what was reordered. */
  lemma {:induction false} Determined(s: Model, cs: seq<Command>, tr: seq<Model>)
    requires LegalRun(|s.layout.space|, |s.values|, cs) && NoChoice(cs) && Trace(s, cs, tr)
    ensures tr[|cs|].values == Meaning(|s.layout.space|, s.values, cs)
    decreases |cs|
  {
    if cs != [] {
      FirstStep(s, cs, tr);
      hide Steps, Legal, Plain, Trace, Chooses;
      Determined(tr[1], cs[1..], tr[1..]);
    }
  }

  lemma FirstStep(s: Model, cs: seq<Command>, tr: seq<Model>)
    requires cs != [] && LegalRun(|s.layout.space|, |s.values|, cs) && NoChoice(cs) && Trace(s, cs, tr)
    ensures Legal(|s.layout.space|, |s.values|, cs[0]) && !Chooses(cs[0]) && NoChoice(cs[1..]) && |tr| == |cs| + 1
    ensures tr[1].values == Plain(|s.layout.space|, s.values, cs[0])
    ensures |tr[1].layout.space| == VarsAfter(|s.layout.space|, cs[0]) && |tr[1].values| == HandlesAfter(|s.values|, cs[0])
    ensures Trace(tr[1], cs[1..], tr[1..]) && LegalRun(|tr[1].layout.space|, |tr[1].values|, cs[1..])
  {
    hide Legal, Plain, Arranged;
    var rest := cs[1..];
    assert !Chooses(cs[0]);
    assert Steps(tr[0], cs[0], tr[1]);
    StepsSize(s, cs[0], tr[1]);
    forall k | 0 <= k < |rest|
      ensures rest[k] == cs[k + 1] && tr[1..][k] == tr[k + 1]
    {
    }
  }

  /** Restricted under whatever order, f agrees with its restriction on c, and no variable is new. */
  lemma RestrictedAgrees(space: seq<nat>, vs: seq<Value>, i: nat, j: nat)
    requires i < |vs| && j < |vs| && vs[i].Value? && vs[j].Value? && vs[j].f != iset{}
    ensures var r := Results(space, vs, Restrict(i, j))[|vs|];
      r.Value? && Y.Restricts(r.f, vs[i].f, vs[j].f)
  {
    Y.RestrictOk(space, vs[i].f, vs[j].f);
  }
}
