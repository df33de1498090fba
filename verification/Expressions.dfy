/** Printed Boolean expressions and how a reader understands them: AND binds tighter than XOR, XOR
    tighter than OR. */
module Expressions {
  import opened Functions
  import opened Cubes

  /** The name of a defined expression: F[index] for a root, E[index] for a sub-expression. */
  datatype Ref = Ref(root: bool, index: nat)

  datatype Token =
    | TConst(b: bool) | TVoid | TLit(v: nat, negated: bool) | TRef(r: Ref, negated: bool)
    | TOr | TXor | TAnd | TOpen | TClose

  /** What the names stand for. */
  type Env = Ref -> Fn

  ghost function Xor(f: Fn, g: Fn): Fn {
    iset a: Asg | (a in f) != (a in g)
  }

  ghost function NotIf(f: Fn, b: bool): Fn {
    if b then Not(f) else f
  }

  /** A function read, and the tokens not yet read. */
  datatype Reading = Fail | Got(f: Fn, rest: seq<Token>)

  predicate Starts(ts: seq<Token>, t: Token) {
    ts != [] && ts[0] == t
  }

  ghost function Atom(env: Env, ts: seq<Token>): (r: Reading)
    ensures r.Got? ==> |r.rest| < |ts|
    decreases |ts|, 0
  {
    if ts == [] then Fail
    else match ts[0]
      case TConst(b) => Got(if b then True() else iset{}, ts[1..])
      case TLit(v, negated) => Got(Lit(v, !negated), ts[1..])
      case TRef(r, negated) => Got(NotIf(env(r), negated), ts[1..])
      case TOpen =>
        var r := ReadOr(env, ts[1..]);
        if r.Got? && Starts(r.rest, TClose) then Got(r.f, r.rest[1..]) else Fail
      case _ => Fail
  }

  ghost function ReadAnd(env: Env, ts: seq<Token>): (r: Reading)
    ensures r.Got? ==> |r.rest| < |ts|
    decreases |ts|, 1
  {
    var x := Atom(env, ts);
    if x.Fail? then Fail
    else if !Starts(x.rest, TAnd) then x
    else
      var y := ReadAnd(env, x.rest[1..]);
      if y.Fail? then Fail else Got(x.f * y.f, y.rest)
  }

  ghost function ReadXor(env: Env, ts: seq<Token>): (r: Reading)
    ensures r.Got? ==> |r.rest| < |ts|
    decreases |ts|, 2
  {
    var x := ReadAnd(env, ts);
    if x.Fail? then Fail
    else if !Starts(x.rest, TXor) then x
    else
      var y := ReadXor(env, x.rest[1..]);
      if y.Fail? then Fail else Got(Xor(x.f, y.f), y.rest)
  }

  ghost function ReadOr(env: Env, ts: seq<Token>): (r: Reading)
    ensures r.Got? ==> |r.rest| < |ts|
    decreases |ts|, 3
  {
    var x := ReadXor(env, ts);
    if x.Fail? then Fail
    else if !Starts(x.rest, TOr) then x
    else
      var y := ReadOr(env, x.rest[1..]);
      if y.Fail? then Fail else Got(x.f + y.f, y.rest)
  }

  /** How reading goes on once f has been read at the level of AND, XOR, and OR. */
  ghost function AndCont(env: Env, f: Fn, rest: seq<Token>): Reading {
    if !Starts(rest, TAnd) then Got(f, rest)
    else
      var y := ReadAnd(env, rest[1..]);
      if y.Fail? then Fail else Got(f * y.f, y.rest)
  }

  ghost function XorCont(env: Env, f: Fn, rest: seq<Token>): Reading {
    if !Starts(rest, TXor) then Got(f, rest)
    else
      var y := ReadXor(env, rest[1..]);
      if y.Fail? then Fail else Got(Xor(f, y.f), y.rest)
  }

  ghost function OrCont(env: Env, f: Fn, rest: seq<Token>): Reading {
    if !Starts(rest, TOr) then Got(f, rest)
    else
      var y := ReadOr(env, rest[1..]);
      if y.Fail? then Fail else Got(f + y.f, y.rest)
  }

  ghost predicate AtomReads(env: Env, ts: seq<Token>, f: Fn) {
    forall rest {:trigger ts + rest} :: Atom(env, ts + rest) == Got(f, rest)
  }

  ghost predicate AndReads(env: Env, ts: seq<Token>, f: Fn) {
    forall rest {:trigger ts + rest} :: ReadAnd(env, ts + rest) == AndCont(env, f, rest)
  }

  ghost predicate XorReads(env: Env, ts: seq<Token>, f: Fn) {
    forall rest {:trigger ts + rest} :: !Starts(rest, TAnd) ==> ReadXor(env, ts + rest) == XorCont(env, f, rest)
  }

  ghost predicate OrReads(env: Env, ts: seq<Token>, f: Fn) {
    forall rest {:trigger ts + rest} :: !Starts(rest, TAnd) && !Starts(rest, TXor) ==>
      ReadOr(env, ts + rest) == OrCont(env, f, rest)
  }

  /** An operator, or the one around an expression; the number is its precedence. */
  const NO_OP: nat := 0
  const OR_OP: nat := 1
  const XOR_OP: nat := 2
  const AND_OP: nat := 3

  /** Wherever an operand of the given operator may stand, the tokens are read as f. */
  ghost predicate Reads(env: Env, context: nat, ts: seq<Token>, f: Fn) {
    if context == AND_OP then AndReads(env, ts, f)
    else if context == XOR_OP then XorReads(env, ts, f)
    else OrReads(env, ts, f)
  }

  lemma AtomIsAnd(env: Env, ts: seq<Token>, f: Fn)
    requires AtomReads(env, ts, f)
    ensures AndReads(env, ts, f)
  {
  }

  lemma AndIsXor(env: Env, ts: seq<Token>, f: Fn)
    requires AndReads(env, ts, f)
    ensures XorReads(env, ts, f)
  {
  }

  lemma XorIsOr(env: Env, ts: seq<Token>, f: Fn)
    requires XorReads(env, ts, f)
    ensures OrReads(env, ts, f)
  {
  }

  /** What is read at one level is read at every lower one. */
  lemma Weaken(env: Env, op: nat, context: nat, ts: seq<Token>, f: Fn)
    requires Reads(env, op, ts, f) && context <= op <= AND_OP
    ensures Reads(env, context, ts, f)
  {
    if op == AND_OP {
      AndIsXor(env, ts, f);
      XorIsOr(env, ts, f);
    } else if op == XOR_OP {
      XorIsOr(env, ts, f);
    }
  }

  lemma AtomAnywhere(env: Env, context: nat, ts: seq<Token>, f: Fn)
    requires AtomReads(env, ts, f) && context <= AND_OP
    ensures Reads(env, context, ts, f)
  {
    AtomIsAnd(env, ts, f);
    Weaken(env, AND_OP, context, ts, f);
  }

  lemma {:induction false} OneToken(env: Env, t: Token, f: Fn)
    requires (t.TConst? && f == if t.b then True() else iset{}) || (t.TLit? && f == Lit(t.v, !t.negated))
          || (t.TRef? && f == NotIf(env(t.r), t.negated))
    ensures AtomReads(env, [t], f)
  {
    forall rest
      ensures Atom(env, [t] + rest) == Got(f, rest)
    {
      assert ([t] + rest)[1..] == rest;
    }
  }

  /** Parentheses make an atom. */
  lemma Parens(env: Env, ts: seq<Token>, f: Fn)
    requires OrReads(env, ts, f)
    ensures AtomReads(env, [TOpen] + ts + [TClose], f)
  {
    forall rest
      ensures Atom(env, [TOpen] + ts + [TClose] + rest) == Got(f, rest)
    {
      var all := [TOpen] + ts + [TClose] + rest;
      assert all[1..] == ts + ([TClose] + rest);
      assert ([TClose] + rest)[1..] == rest;
    }
  }

  /** The default handle_left and handle_right: parentheses where a weaker operator stands in the
      context of a stronger one. */
  function Wrap(op: nat, context: nat, ts: seq<Token>): seq<Token> {
    if op < context then [TOpen] + ts + [TClose] else ts
  }

  lemma Wrapped(env: Env, op: nat, context: nat, ts: seq<Token>, f: Fn)
    requires Reads(env, op, ts, f) && op <= AND_OP && context <= AND_OP
    ensures Reads(env, context, Wrap(op, context, ts), f)
  {
    if op < context {
      Weaken(env, op, NO_OP, ts, f);
      Parens(env, ts, f);
      AtomAnywhere(env, context, Wrap(op, context, ts), f);
    } else {
      Weaken(env, op, context, ts, f);
    }
  }

  /** Literals 0, 1 and 2 with two operators between them. */
  function ThreeLits(op1: Token, op2: Token): seq<Token> {
    [TLit(0, false), op1, TLit(1, false), op2, TLit(2, false)]
  }

  lemma LitAtom(env: Env, v: nat, rest: seq<Token>)
    ensures Atom(env, [TLit(v, false)] + rest) == Got(Lit(v, true), rest)
  {
    assert ([TLit(v, false)] + rest)[1..] == rest;
  }

  /** Reading the last literal, and the one before it, at every level. */
  lemma TailRead(env: Env, op: Token)
    requires op in {TOr, TXor, TAnd}
    ensures var z, t, u := Lit(2, true), [TLit(2, false)], [TLit(1, false), op, TLit(2, false)];
      && [op, TLit(2, false)][1..] == t
      && ReadAnd(env, t) == ReadXor(env, t) == ReadOr(env, t) == Got(z, [])
      && Atom(env, u) == Got(Lit(1, true), [op, TLit(2, false)])
      && (op != TAnd ==> ReadAnd(env, u) == Got(Lit(1, true), [op, TLit(2, false)]))
      && (op == TOr ==> ReadXor(env, u) == Got(Lit(1, true), [op, TLit(2, false)]))
  {
    LitAtom(env, 2, []);
    assert [TLit(2, false)] + [] == [TLit(2, false)];
    LitAtom(env, 1, [op, TLit(2, false)]);
    assert [TLit(1, false)] + [op, TLit(2, false)] == [TLit(1, false), op, TLit(2, false)];
    hide Atom;
  }

  lemma HeadRead(env: Env, op1: Token, op2: Token)
    ensures Atom(env, ThreeLits(op1, op2)) == Got(Lit(0, true), [op1, TLit(1, false), op2, TLit(2, false)])
    ensures [op1, TLit(1, false), op2, TLit(2, false)][1..] == [TLit(1, false), op2, TLit(2, false)]
  {
    LitAtom(env, 0, [op1, TLit(1, false), op2, TLit(2, false)]);
    assert [TLit(0, false)] + [op1, TLit(1, false), op2, TLit(2, false)] == ThreeLits(op1, op2);
  }

  /** Without parentheses the operand of the stronger operator is cut short. */
  lemma BareAnd(env: Env, op: Token)
    requires op == TOr || op == TXor
    ensures var x, y, z := Lit(0, true), Lit(1, true), Lit(2, true);
      ReadOr(env, ThreeLits(TAnd, op)) == Got(if op == TOr then x * y + z else Xor(x * y, z), [])
  {
    HeadRead(env, TAnd, op);
    TailRead(env, op);
    hide Atom, Lit, Xor;
    var all := ThreeLits(TAnd, op);
    assert ReadAnd(env, all) == Got(Lit(0, true) * Lit(1, true), [op, TLit(2, false)]);
  }

  lemma BareXor(env: Env)
    ensures var x, y, z := Lit(0, true), Lit(1, true), Lit(2, true);
      ReadOr(env, ThreeLits(TXor, TOr)) == Got(Xor(x, y) + z, [])
  {
    HeadRead(env, TXor, TOr);
    TailRead(env, TOr);
    hide Atom, Lit, Xor;
    var all := ThreeLits(TXor, TOr);
    assert ReadAnd(env, all) == Got(Lit(0, true), [TXor, TLit(1, false), TOr, TLit(2, false)]);
    assert ReadXor(env, all) == Got(Xor(Lit(0, true), Lit(1, true)), [TOr, TLit(2, false)]);
  }

  /** Parentheses stand exactly where a weaker operator is an operand of a stronger one, and none of
      these can be left out: the three expressions would be read as other functions. */
  lemma ParensNeeded(env: Env, op: nat, context: nat, ts: seq<Token>)
    ensures Wrap(op, context, ts) == ts <==> context <= op
    ensures var x, y, z := Lit(0, true), Lit(1, true), Lit(2, true);
      && ReadOr(env, ThreeLits(TAnd, TOr)) != Got(x * (y + z), [])
      && ReadOr(env, ThreeLits(TAnd, TXor)) != Got(x * Xor(y, z), [])
      && ReadOr(env, ThreeLits(TXor, TOr)) != Got(Xor(x, y + z), [])
  {
    var x, y, z := Lit(0, true), Lit(1, true), Lit(2, true);
    BareAnd(env, TOr);
    BareAnd(env, TXor);
    BareXor(env);
    hide ReadOr;
    var e2: Asg := {2};
    var e02: Asg := {0, 2};
    assert e2 in x * y + z && e2 !in x * (y + z);
    assert e2 in Xor(x * y, z) && e2 !in x * Xor(y, z);
    assert e02 in Xor(x, y) + z && e02 !in Xor(x, y + z);
  }

  lemma AndTokens(env: Env, t: Token, f: Fn, ts: seq<Token>, g: Fn)
    requires AtomReads(env, [t], f) && AndReads(env, ts, g)
    ensures AndReads(env, [t, TAnd] + ts, f * g)
  {
    forall rest
      ensures ReadAnd(env, [t, TAnd] + ts + rest) == AndCont(env, f * g, rest)
    {
      var tail := [TAnd] + (ts + rest);
      assert [t, TAnd] + ts + rest == [t] + tail;
      assert tail[1..] == ts + rest;
      if Starts(rest, TAnd) {
        var y := ReadAnd(env, rest[1..]);
        assert y.Got? ==> f * (g * y.f) == f * g * y.f;
      }
    }
  }

  lemma XorTokens(env: Env, t: Token, f: Fn, ts: seq<Token>, g: Fn)
    requires AtomReads(env, [t], f) && XorReads(env, ts, g)
    ensures XorReads(env, [t, TXor] + ts, Xor(f, g))
  {
    AtomIsAnd(env, [t], f);
    AndIsXor(env, [t], f);
    forall rest | !Starts(rest, TAnd)
      ensures ReadXor(env, [t, TXor] + ts + rest) == XorCont(env, Xor(f, g), rest)
    {
      var tail := [TXor] + (ts + rest);
      assert [t, TXor] + ts + rest == [t] + tail;
      assert tail[1..] == ts + rest;
      if Starts(rest, TXor) {
        var y := ReadXor(env, rest[1..]);
        assert y.Got? ==> Xor(f, Xor(g, y.f)) == Xor(Xor(f, g), y.f);
      }
    }
  }

  lemma OrTokens(env: Env, us: seq<Token>, f: Fn, ts: seq<Token>, g: Fn)
    requires OrReads(env, us, f) && OrReads(env, ts, g)
    ensures OrReads(env, us + [TOr] + ts, f + g)
  {
    forall rest | !Starts(rest, TAnd) && !Starts(rest, TXor)
      ensures ReadOr(env, us + [TOr] + ts + rest) == OrCont(env, f + g, rest)
    {
      var tail := [TOr] + (ts + rest);
      assert us + [TOr] + ts + rest == us + tail;
      assert tail[1..] == ts + rest;
      if Starts(rest, TOr) {
        var y := ReadOr(env, rest[1..]);
        assert y.Got? ==> f + (g + y.f) == f + g + y.f;
      }
    }
  }

  /** A whole expression. */
  lemma ReadWhole(env: Env, ts: seq<Token>, f: Fn)
    requires Reads(env, NO_OP, ts, f)
    ensures ReadOr(env, ts) == Got(f, [])
  {
    assert ts + [] == ts;
  }

  function RefsIn(ts: seq<Token>): set<Ref> {
    set i {:trigger ts[i]} | 0 <= i < |ts| && ts[i].TRef? :: ts[i].r
  }

  lemma RefsOver(a: seq<Token>, b: seq<Token>)
    ensures RefsIn(a + b) == RefsIn(a) + RefsIn(b)
  {
    forall r
      ensures r in RefsIn(a + b) <==> r in RefsIn(a) + RefsIn(b)
    {
      if r in RefsIn(a) {
        var i :| 0 <= i < |a| && a[i].TRef? && a[i].r == r;
        assert (a + b)[i] == a[i];
      }
      if r in RefsIn(b) {
        var i :| 0 <= i < |b| && b[i].TRef? && b[i].r == r;
        assert (a + b)[|a| + i] == b[i];
      }
    }
  }

  ghost predicate Agree(env: Env, env': Env, rs: set<Ref>) {
    forall r {:trigger env(r)} {:trigger env'(r)} :: r in rs ==> env(r) == env'(r)
  }

  lemma TailRefs(ts: seq<Token>, k: nat)
    requires k <= |ts|
    ensures RefsIn(ts[k..]) <= RefsIn(ts)
  {
    assert ts == ts[..k] + ts[k..];
    RefsOver(ts[..k], ts[k..]);
  }

  /** What is left after reading is the end of what there was. */
  ghost predicate Suffix(r: Reading, ts: seq<Token>) {
    r.Got? ==> |r.rest| <= |ts| && r.rest == ts[|ts| - |r.rest|..]
  }

  lemma SuffixRefs(r: Reading, ts: seq<Token>, k: nat)
    requires Suffix(r, ts) && r.Got? && k <= |r.rest|
    ensures RefsIn(r.rest[k..]) <= RefsIn(ts) && r.rest[k..] == ts[|ts| - |r.rest| + k..]
  {
    TailRefs(ts, |ts| - |r.rest| + k);
  }

  /** Reading depends on the names that occur only. */
  lemma {:induction false} SameAtom(env: Env, env': Env, ts: seq<Token>)
    requires Agree(env, env', RefsIn(ts))
    ensures Atom(env, ts) == Atom(env', ts) && Suffix(Atom(env, ts), ts)
    decreases |ts|, 0
  {
    if ts != [] {
      if ts[0].TRef? {
        assert ts[0].r in RefsIn(ts);
      }
      TailRefs(ts, 1);
      if ts[0].TOpen? {
        SameOr(env, env', ts[1..]);
      }
    }
  }

  lemma {:induction false} SameAnd(env: Env, env': Env, ts: seq<Token>)
    requires Agree(env, env', RefsIn(ts))
    ensures ReadAnd(env, ts) == ReadAnd(env', ts) && Suffix(ReadAnd(env, ts), ts)
    decreases |ts|, 1
  {
    SameAtom(env, env', ts);
    var x := Atom(env, ts);
    if x.Got? && Starts(x.rest, TAnd) {
      SuffixRefs(x, ts, 1);
      SameAnd(env, env', x.rest[1..]);
    }
  }

  lemma {:induction false} SameXor(env: Env, env': Env, ts: seq<Token>)
    requires Agree(env, env', RefsIn(ts))
    ensures ReadXor(env, ts) == ReadXor(env', ts) && Suffix(ReadXor(env, ts), ts)
    decreases |ts|, 2
  {
    SameAnd(env, env', ts);
    var x := ReadAnd(env, ts);
    if x.Got? && Starts(x.rest, TXor) {
      SuffixRefs(x, ts, 1);
      SameXor(env, env', x.rest[1..]);
    }
  }

  lemma {:induction false} SameOr(env: Env, env': Env, ts: seq<Token>)
    requires Agree(env, env', RefsIn(ts))
    ensures ReadOr(env, ts) == ReadOr(env', ts) && Suffix(ReadOr(env, ts), ts)
    decreases |ts|, 3
  {
    SameXor(env, env', ts);
    var x := ReadXor(env, ts);
    if x.Got? && Starts(x.rest, TOr) {
      SuffixRefs(x, ts, 1);
      SameOr(env, env', x.rest[1..]);
    }
  }

  /** An equation: a name and its expression. */
  datatype Def = Def(r: Ref, ts: seq<Token>)

  /** The names satisfy the equation; void stands for no function. */
  ghost predicate Satisfies(env: Env, d: Def) {
    d.ts == [TVoid] || ReadOr(env, d.ts) == Got(env(d.r), [])
  }

  ghost predicate Solves(env: Env, defs: seq<Def>) {
    forall i {:trigger defs[i]} :: 0 <= i < |defs| ==> Satisfies(env, defs[i])
  }

  /** Every name used is defined, and further down. */
  ghost predicate Grounded(defs: seq<Def>, height: Ref -> nat, d: Def) {
    forall r {:trigger r in RefsIn(d.ts)} :: r in RefsIn(d.ts) ==>
      height(r) < height(d.r) && exists i {:trigger defs[i]} :: 0 <= i < |defs| && defs[i].r == r && defs[i].ts != [TVoid]
  }

  ghost predicate Acyclic(defs: seq<Def>, height: Ref -> nat) {
    forall i {:trigger defs[i]} :: 0 <= i < |defs| ==> Grounded(defs, height, defs[i])
  }

  /** Acyclic equations have at most one solution: unfolding the names leads to it. */
  lemma {:induction false} UniqueSolution(env: Env, env': Env, defs: seq<Def>, height: Ref -> nat, i: nat)
    requires Solves(env, defs) && Solves(env', defs) && Acyclic(defs, height)
    requires i < |defs| && defs[i].ts != [TVoid]
    ensures env(defs[i].r) == env'(defs[i].r)
    decreases height(defs[i].r)
  {
    var d := defs[i];
    assert Grounded(defs, height, d) && Satisfies(env, d) && Satisfies(env', d);
    forall r | r in RefsIn(d.ts)
      ensures env(r) == env'(r)
    {
      var j :| 0 <= j < |defs| && defs[j].r == r && defs[j].ts != [TVoid];
      UniqueSolution(env, env', defs, height, j);
    }
    SameOr(env, env', d.ts);
  }
}
