/** Floating point numbers with a 47-bit mantissa and no sign, used to count. */
module Doubles {
  import opened Nearest

  const H_BITS := 15
  const L_BITS := 32
  const MANTISSA_BITS := 47
  const MAX_EXP := 65535
  const H_SIZE := 0x8000
  const L_SIZE := 0x1_0000_0000
  const MSB := 0x8000_0000

  /** mantissa * 2^exp, the mantissa split over two words. */
  datatype Double = Double(inexact: bool, exp: nat, h: nat, l: nat)

  const ZERO := Double(false, 0, 0, 0)
  const ONE := Double(false, 0, 0, 1)

  predicate Fits(d: Double) {
    d.exp <= MAX_EXP && d.h < H_SIZE && d.l < L_SIZE
  }

  function Mantissa(d: Double): nat {
    d.h * L_SIZE + d.l
  }

  function Value(d: Double): nat {
    Mantissa(d) * Pow2(d.exp)
  }

  /** Minimal exponent: the top bit of the mantissa is set unless the exponent is 0. */
  predicate Normalized(d: Double) {
    Fits(d) && (d.exp > 0 ==> d.h >= H_SIZE / 2)
  }

  lemma {:induction false} Pow2Add(a: nat, b: nat)
    ensures Pow2(a + b) == Pow2(a) * Pow2(b)
    decreases a
  {
    if a > 0 {
      Pow2Add(a - 1, b);
      assert Pow2(a + b) == 2 * Pow2(a + b - 1);
    }
  }

  lemma {:induction false} Pow2Positive(a: nat)
    ensures Pow2(a) > 0
  {
    if a > 0 {
      Pow2Positive(a - 1);
    }
  }

  lemma {:induction false} Pow2Mono(a: nat, b: nat)
    requires a <= b
    ensures Pow2(a) <= Pow2(b)
    decreases b - a
  {
    if a < b {
      Pow2Mono(a, b - 1);
    }
  }

  lemma Pow2Words()
    ensures Pow2(15) == H_SIZE && Pow2(32) == L_SIZE && Pow2(47) == H_SIZE * L_SIZE
  {
    assert Pow2(8) == 256;
    Pow2Add(8, 7);
    Pow2Add(8, 8);
    Pow2Add(16, 16);
    Pow2Add(15, 32);
  }

  lemma MulMono(a: nat, b: nat, c: nat)
    ensures a <= b ==> a * c <= b * c
  {
  }

  lemma DivUnique(x: nat, b: nat, q: nat, r: nat)
    requires x == q * b + r && r < b
    ensures x / b == q && x % b == r
  {
    var q', r' := x / b, x % b;
    assert x == q' * b + r';
    MulMono(q' + 1, q, b);
    MulMono(q + 1, q', b);
  }

  lemma Expand(a: nat, b: nat, c: nat, r: nat, p: nat, q: nat, w: nat)
    requires w == p * q
    ensures (a * p + b) * w + (c * p + r) == (a * w + (c + b * q)) * p + r
  {
    assert (a * p + b) * w == (a * p) * w + b * w;
    assert (a * p) * w == (a * w) * p;
    assert b * w == (b * q) * p;
    assert (a * w + (c + b * q)) * p == (a * w) * p + c * p + (b * q) * p;
  }

  /** A number below p * q, divided by p, is below q. */
  lemma QuotientBound(x: nat, p: nat, q: nat)
    requires p > 0 && x < p * q
    ensures x / p < q
  {
    MulMono(q, x / p, p);
    assert x == (x / p) * p + x % p;
  }

  lemma AcrossBound(hr: nat, lq: nat, p: nat, q: nat, w: nat)
    requires hr < p && lq < q && w == p * q
    ensures lq + hr * q < w
  {
    MulMono(hr + 1, p, q);
  }

  /** Shifting a two-word number right: bits move over from the high word to the low one. */
  lemma ShiftAcross(h: nat, l: nat, p: nat, q: nat, w: nat)
    requires p > 0 && w == p * q && l < w
    ensures (h * w + l) / p == (h / p) * w + (l / p + (h % p) * q)
    ensures (h * w + l) % p == l % p
    ensures 0 <= l / p + (h % p) * q < w && 0 <= h / p <= h
  {
    QuotientLess(h, p);
    var hq, hr, lq, lr := h / p, h % p, l / p, l % p;
    Quotient(h, p);
    Quotient(l, p);
    Expand(hq, hr, lq, lr, p, q, w);
    QuotientBound(l, p, q);
    AcrossBound(hr, lq, p, q, w);
    DivUnique((hq * p + hr) * w + (lq * p + lr), p, hq * w + (lq + hr * q), lr);
  }

  lemma Quotient(x: nat, p: nat)
    requires p > 0
    ensures x == (x / p) * p + x % p && x % p < p
  {
  }

  lemma Widen(a: nat, b: nat, d: nat, w: nat, l: nat)
    ensures (a * d + b) * w + l == a * (d * w) + (b * w + l)
  {
    assert (a * d + b) * w == (a * d) * w + b * w;
    assert (a * d) * w == a * (d * w);
  }

  /** Shifting by a word and more: only bits of the high word survive, in the low word. */
  lemma ShiftFar(h: nat, l: nat, d: nat, w: nat)
    requires d > 0 && l < w
    ensures d * w > 0 && (h * w + l) / (d * w) == h / d
    ensures (h * w + l) % (d * w) == 0 <==> h % d == 0 && l == 0
  {
    Widen(h / d, h % d, d, w, l);
    assert h == (h / d) * d + h % d;
    MulMono(h % d, d - 1, w);
    assert (d - 1) * w == d * w - w;
    DivUnique(h * w + l, d * w, h / d, (h % d) * w + l);
    MulMono(1, h % d, w);
  }

  lemma Split(delta: nat)
    requires delta < 32
    ensures Pow2(delta) > 0 && L_SIZE == Pow2(delta) * Pow2(32 - delta)
  {
    Pow2Positive(delta);
    Pow2Words();
    Pow2Add(delta, 32 - delta);
  }

  lemma SplitFar(delta: nat)
    requires 32 <= delta
    ensures Pow2(delta - 32) > 0 && Pow2(delta) == Pow2(delta - 32) * L_SIZE
  {
    Pow2Positive(delta - 32);
    Pow2Words();
    Pow2Add(delta - 32, 32);
  }

  lemma Gone(x: nat, bits: nat, delta: nat)
    requires x < Pow2(bits) && delta >= bits
    ensures Pow2(delta) > 0 && x / Pow2(delta) == 0 && x % Pow2(delta) == x
  {
    Pow2Mono(bits, delta);
    DivUnique(x, Pow2(delta), 0, x);
  }

  lemma QuotientLess(x: nat, p: nat)
    requires p > 0
    ensures x / p <= x
  {
    MulMono(1, p, x / p);
    assert x == (x / p) * p + x % p;
  }

  /** What shifting (h0, l0) right by delta must give. */
  ghost predicate Shifted(h0: nat, l0: nat, delta: nat, h: int, l: int, lost: bool) {
    && 0 <= h < H_SIZE && 0 <= l < L_SIZE && Pow2(delta) > 0
    && h * L_SIZE + l == (h0 * L_SIZE + l0) / Pow2(delta)
    && (lost <==> (h0 * L_SIZE + l0) % Pow2(delta) != 0)
  }

  lemma ShiftedFar(h0: nat, l0: nat, delta: nat, d: nat, q: nat)
    requires h0 < H_SIZE && l0 < L_SIZE && 32 <= delta && d == Pow2(delta - 32) && d > 0 && q == h0 / d
    ensures Shifted(h0, l0, delta, 0, q, h0 % d != 0 || l0 != 0)
  {
    hide Pow2;
    SplitFar(delta);
    ShiftFar(h0, l0, d, L_SIZE);
    QuotientLess(h0, d);
  }

  lemma ShiftedAcross(h0: nat, l0: nat, delta: nat)
    requires h0 < H_SIZE && l0 < L_SIZE && 0 < delta < 32
    ensures var p, q := Pow2(delta), Pow2(32 - delta);
      p > 0 && Shifted(h0, l0, delta, h0 / p, l0 / p + (h0 % p) * q, l0 % p != 0)
  {
    hide Pow2;
    Split(delta);
    ShiftedBy(h0, l0, delta, Pow2(delta), Pow2(32 - delta), L_SIZE);
  }

  lemma ShiftedBy(h0: nat, l0: nat, delta: nat, p: nat, q: nat, w: nat)
    requires h0 < H_SIZE && l0 < w && w == L_SIZE == p * q && p == Pow2(delta) && p > 0
    ensures Shifted(h0, l0, delta, h0 / p, l0 / p + (h0 % p) * q, l0 % p != 0)
  {
    hide Pow2;
    ShiftAcross(h0, l0, p, q, w);
  }

  lemma ShiftedAway(h0: nat, l0: nat, delta: nat)
    requires h0 < H_SIZE && l0 < L_SIZE && 47 <= delta
    ensures Shifted(h0, l0, delta, 0, 0, h0 != 0 || l0 != 0)
  {
    Pow2Words();
    Gone(h0 * L_SIZE + l0, 47, delta);
  }

  /** The mantissa part of D_align_exp: shift right, and report whether a bit was lost. */
  method ShiftRight(h0: nat, l0: nat, delta: nat) returns (h: nat, l: nat, lost: bool)
    requires h0 < H_SIZE && l0 < L_SIZE && delta > 0
    ensures Shifted(h0, l0, delta, h, l, lost)
  {
    hide Pow2, Shifted;
    h, l, lost := h0, l0, false;
    if delta >= MANTISSA_BITS {
      ShiftedAway(h0, l0, delta);
      if h != 0 || l != 0 {
        h, l, lost := 0, 0, true;
      }
    } else if delta >= L_BITS {
      var diff := delta - L_BITS;
      SplitFar(delta);
      lost := h % Pow2(diff) != 0 || l != 0;
      h, l := 0, h / Pow2(diff);
      ShiftedFar(h0, l0, delta, Pow2(diff), l);
    } else {
      ShiftedAcross(h0, l0, delta);
      lost := l % Pow2(delta) != 0;
      l := l / Pow2(delta);
      var over;
      if delta >= H_BITS {
        Pow2Words();
        Gone(h0, 15, delta);
        over, h := h, 0;
      } else {
        over, h := h % Pow2(delta), h / Pow2(delta);
      }
      over := over * Pow2(L_BITS - delta);
      l := l + over;
    }
  }

  /** D_align_exp: shift the mantissa right by delta and raise the exponent by as much. */
  method AlignExp(d0: Double, delta: nat) returns (d: Double)
    requires Fits(d0)
    ensures Fits(d)
    ensures Pow2(delta) > 0 && Mantissa(d) == Mantissa(d0) / Pow2(delta)
    ensures d.exp == if d0.exp + delta <= MAX_EXP then d0.exp + delta else MAX_EXP
    ensures d.inexact <==> d0.inexact || Mantissa(d0) % Pow2(delta) != 0 || d0.exp + delta > MAX_EXP
  {
    if delta == 0 {
      return d0;
    }
    var h, l, lost := ShiftRight(d0.h, d0.l, delta);
    d := d0.(h := h, l := l, inexact := d0.inexact || lost);
    if d.exp + delta <= MAX_EXP {
      d := d.(exp := d.exp + delta);
    } else {
      d := d.(exp := MAX_EXP, inexact := true);
    }
  }

  /** D_align: raise the smaller exponent to the larger one. */
  method Align(d1: Double, d2: Double) returns (r1: Double, r2: Double)
    requires Fits(d1) && Fits(d2)
    ensures Fits(r1) && Fits(r2) && r1.exp == r2.exp == if d1.exp < d2.exp then d2.exp else d1.exp
    ensures Aligned(d1, r1, r1.exp) && Aligned(d2, r2, r2.exp)
  {
    r1, r2 := d1, d2;
    if d1.exp < d2.exp {
      r1 := AlignExp(d1, d2.exp - d1.exp);
    } else if d1.exp > d2.exp {
      r2 := AlignExp(d2, d1.exp - d2.exp);
    }
  }

  /** r is d brought to exponent e, the bits below cut off. */
  ghost predicate Aligned(d: Double, r: Double, e: nat) {
    && d.exp <= e && r.exp == e && Pow2(e - d.exp) > 0
    && Mantissa(r) == Mantissa(d) / Pow2(e - d.exp)
    && (r.inexact <==> d.inexact || Mantissa(d) % Pow2(e - d.exp) != 0)
  }

  /** The addition of two low words, the carry found from their top bits. */
  method AddLow(l1: nat, l2: nat) returns (l: nat, low: nat)
    requires l1 < L_SIZE && l2 < L_SIZE
    ensures l < L_SIZE && low <= 1 && l + low * L_SIZE == l1 + l2
  {
    var msb1, msb2 := l1 / MSB, l2 / MSB;
    l := (l1 % MSB + l2 % MSB) % L_SIZE;
    var msb := l / MSB;
    var count := msb1 + msb2 + msb;
    l := if count % 2 == 1 then l % MSB + MSB else l % MSB;
    low := count / 2;
  }

  /** The addition of two mantissas word by word. */
  method AddMantissas(h1: nat, l1: nat, h2: nat, l2: nat) returns (h: nat, l: nat, carry: bool)
    requires h1 < H_SIZE && h2 < H_SIZE && l1 < L_SIZE && l2 < L_SIZE
    ensures h < H_SIZE && l < L_SIZE
    ensures h * L_SIZE + l + (if carry then H_SIZE * L_SIZE else 0) == (h1 * L_SIZE + l1) + (h2 * L_SIZE + l2)
  {
    var low;
    l, low := AddLow(l1, l2);
    h := h1 + h2 + low;
    carry := (h / H_SIZE) % 2 == 1;
    h := h % H_SIZE;
  }

  /** What cutting the low bits of a number costs at exponent e. */
  lemma AlignedValue(d: Double, r: Double, e: nat)
    requires Fits(d) && Aligned(d, r, e)
    ensures Value(r) <= Value(d) < Value(r) + Pow2(e)
    ensures (r.inexact == d.inexact && !d.inexact) ==> Value(r) == Value(d)
    ensures r.inexact && !d.inexact ==> Value(r) < Value(d)
    ensures e == d.exp ==> Value(r) == Value(d)
  {
    hide Pow2;
    var D, P := Pow2(e - d.exp), Pow2(d.exp);
    Pow2Positive(d.exp);
    Pow2Add(e - d.exp, d.exp);
    var q, x := Mantissa(d) / D, Mantissa(d) % D;
    Quotient(Mantissa(d), D);
    CutValue(q, x, D, P);
    if e == d.exp {
      PowZero();
    }
  }

  lemma PowZero()
    ensures Pow2(0) == 1
  {
  }

  lemma CutValue(q: nat, x: nat, D: nat, P: nat)
    requires x < D && P > 0
    ensures q * (D * P) <= (q * D + x) * P < q * (D * P) + D * P
    ensures x == 0 <==> (q * D + x) * P == q * (D * P)
  {
    MulMono(1, x, P);
    assert (q * D + x) * P == (q * D) * P + x * P;
    assert (q * D) * P == q * (D * P);
    MulMono(x + 1, D, P);
  }

  /** The result of adding aligned mantissas whose sum is S, at exponent e. */
  ghost predicate Summed(d: Double, S: nat, e: nat, inexact: bool) {
    && Fits(d)
    && (if S < H_SIZE * L_SIZE then Mantissa(d) == S && d.exp == e && (d.inexact <==> inexact)
        else Mantissa(d) == S / 2 && d.exp == (if e < MAX_EXP then e + 1 else MAX_EXP)
             && (d.inexact <==> inexact || S % 2 != 0 || e == MAX_EXP))
  }

  /** The carry comes back as the top bit of the halved mantissa. */
  method HalveWithCarry(d0: Double) returns (d: Double)
    requires Fits(d0) && Mantissa(d0) < H_SIZE * L_SIZE - 1
    ensures Summed(d, Mantissa(d0) + H_SIZE * L_SIZE, d0.exp, d0.inexact)
  {
    NextPow(0);
    PowZero();
    d := AlignExp(d0, 1);
    d := d.(h := d.h + H_SIZE / 2);
  }

  /** The addition once the exponents are equal. */
  method AddAligned(r1: Double, r2: Double) returns (d: Double)
    requires Fits(r1) && Fits(r2) && r1.exp == r2.exp
    ensures Summed(d, Mantissa(r1) + Mantissa(r2), r1.exp, r1.inexact || r2.inexact)
  {
    var h, l, carry := AddMantissas(r1.h, r1.l, r2.h, r2.l);
    d := Double(r1.inexact || r2.inexact, r1.exp, h, l);
    if carry {
      d := HalveWithCarry(d);
    }
  }

  lemma HalfDouble(q: nat, P: nat)
    ensures q * (2 * P) == (2 * q) * P
  {
  }

  lemma NextPow(e: nat)
    ensures Pow2(e + 1) == 2 * Pow2(e)
  {
  }

  /** The exponent of the sum would not fit: the larger exponent is maximal and the mantissas carry. */
  predicate Overflows(d1: Double, d2: Double)
    requires Fits(d1) && Fits(d2)
  {
    var e := if d1.exp < d2.exp then d2.exp else d1.exp;
    Pow2Positive(e - d1.exp);
    Pow2Positive(e - d2.exp);
    e == MAX_EXP && Mantissa(d1) / Pow2(e - d1.exp) + Mantissa(d2) / Pow2(e - d2.exp) >= H_SIZE * L_SIZE
  }

  /** d is v rounded down. */
  ghost predicate RoundedDown(d: Double, v: nat) {
    Normalized(d) && Value(d) <= v < Value(d) + Pow2(d.exp)
  }

  /** What addition promises: the sum rounded down, or, if the exponent overflows, half of it; and it
      is marked inexact exactly if an operand was or something is lost. */
  ghost predicate SumOk(d1: Double, d2: Double, d: Double)
    requires Fits(d1) && Fits(d2)
  {
    var v := Value(d1) + Value(d2);
    && (d.inexact <==> d1.inexact || d2.inexact || Value(d) != v)
    && (if Overflows(d1, d2) then
          Normalized(d) && d.exp == MAX_EXP && 2 * Value(d) <= v < 2 * Value(d) + 2 * Pow2(MAX_EXP)
        else RoundedDown(d, v))
  }

  /** No number of this format lies between v and what it is rounded down to. */
  lemma LargestBelow(d: Double, v: nat, x: Double)
    requires RoundedDown(d, v) && Normalized(x) && Value(x) <= v
    ensures Value(x) <= Value(d)
  {
    hide Pow2;
    if x.exp < d.exp {
      SmallerExponent(x, d);
    } else {
      Pow2Add(x.exp - d.exp, d.exp);
      Assoc(Mantissa(x), Pow2(x.exp - d.exp), Pow2(d.exp));
      Multiples(Mantissa(x) * Pow2(x.exp - d.exp), Mantissa(d), Pow2(d.exp));
    }
  }

  lemma Multiples(a: nat, b: nat, P: nat)
    requires a * P < b * P + P
    ensures a * P <= b * P
  {
    MulMono(b + 1, a, P);
    MulMono(a, b, P);
  }

  /** Rounding down loses less than one part in 2^46, and nothing of a number below 2^47. */
  lemma RoundingLoss(d: Double, v: nat)
    requires RoundedDown(d, v)
    ensures (v - Value(d)) * Pow2(46) <= v
    ensures v < Pow2(47) ==> Value(d) == v
  {
    hide Pow2;
    PowZero();
    Pow2Half();
    NextPow(46);
    if d.exp > 0 {
      Pow2Positive(d.exp);
      Pow2Mono(1, d.exp);
      NextPow(0);
      MulMono(Pow2(46), Mantissa(d), Pow2(d.exp));
      Commutes(Pow2(46), Pow2(d.exp));
      MulMono(v - Value(d), Pow2(d.exp), Pow2(46));
      MulMono(2, Pow2(d.exp), Pow2(46));
    }
  }

  lemma MulLess(a: nat, b: nat, c: nat)
    requires a < b && c > 0
    ensures a * c < b * c
  {
  }

  lemma Sub(a: nat, b: nat, P: nat)
    requires b <= a
    ensures a * P == (a - b) * P + b * P
  {
  }

  lemma Commutes(a: nat, b: nat)
    ensures a * b == b * a
  {
  }

  lemma TwoOver(P: nat, Q: nat)
    ensures (2 * P) * Q == (2 * Q) * P
  {
  }

  lemma Pow2Half()
    ensures Pow2(46) == H_SIZE / 2 * L_SIZE > 0
  {
    Pow2Words();
    assert Pow2(47) == 2 * Pow2(46);
  }

  /** D_add */
  method Add(d1: Double, d2: Double) returns (d: Double)
    requires Normalized(d1) && Normalized(d2)
    ensures SumOk(d1, d2, d)
  {
    var r1, r2 := Align(d1, d2);
    d := AddAligned(r1, r2);
    AddOk(d1, d2, r1, r2, d);
  }

  lemma AddOk(d1: Double, d2: Double, r1: Double, r2: Double, d: Double)
    requires Normalized(d1) && Normalized(d2) && Fits(r1) && Fits(r2)
    requires r1.exp == r2.exp == if d1.exp < d2.exp then d2.exp else d1.exp
    requires Aligned(d1, r1, r1.exp) && Aligned(d2, r2, r1.exp)
    requires Summed(d, Mantissa(r1) + Mantissa(r2), r1.exp, r1.inexact || r2.inexact)
    ensures SumOk(d1, d2, d)
  {
    hide Pow2;
    LargerMantissa(d1, d2, r1, r2);
    AddNormalized(d1, d2, r1, r2, d);
    SumRounded(d1, d2, r1, r2, d);
  }

  /** An aligned number is marked exactly if it was or something is lost. */
  lemma AlignedFlag(d: Double, r: Double, e: nat)
    requires Fits(d) && Aligned(d, r, e)
    ensures Value(r) == Mantissa(r) * Pow2(e) && Value(r) <= Value(d) < Value(r) + Pow2(e)
    ensures r.inexact <==> d.inexact || Value(r) != Value(d)
  {
    AlignedValue(d, r, e);
  }

  /** What the cut bits and the halving cost. */
  lemma SumRounded(d1: Double, d2: Double, r1: Double, r2: Double, d: Double)
    requires Normalized(d1) && Normalized(d2) && Normalized(d) && Fits(r1) && Fits(r2)
    requires r1.exp == r2.exp == if d1.exp < d2.exp then d2.exp else d1.exp
    requires Aligned(d1, r1, r1.exp) && Aligned(d2, r2, r1.exp)
    requires Summed(d, Mantissa(r1) + Mantissa(r2), r1.exp, r1.inexact || r2.inexact)
    ensures SumOk(d1, d2, d)
  {
    hide Pow2, Value, Mantissa;
    var e, S, v := r1.exp, Mantissa(r1) + Mantissa(r2), Value(d1) + Value(d2);
    AlignedFlag(d1, r1, e);
    AlignedFlag(d2, r2, e);
    LargerMantissa(d1, d2, r1, r2);
    Distribute(Mantissa(r1), Mantissa(r2), Pow2(e));
    OverflowsIff(d1, d2, r1, r2);
    SumOfAligned(d, S, e, r1.inexact || r2.inexact, v, d1.inexact || d2.inexact);
  }

  lemma OverflowsIff(d1: Double, d2: Double, r1: Double, r2: Double)
    requires Fits(d1) && Fits(d2) && r1.exp == if d1.exp < d2.exp then d2.exp else d1.exp
    requires Aligned(d1, r1, r1.exp) && Aligned(d2, r2, r1.exp)
    ensures Overflows(d1, d2) <==> r1.exp == MAX_EXP && Mantissa(r1) + Mantissa(r2) >= H_SIZE * L_SIZE
  {
  }

  /** v is what S units of 2^e were before bits below were cut, marked as lossy. */
  lemma SumOfAligned(d: Double, S: nat, e: nat, lossy: bool, v: nat, before: bool)
    requires Summed(d, S, e, lossy) && Normalized(d) && e <= MAX_EXP
    requires S * Pow2(e) <= v < S * Pow2(e) + Pow2(e) && (lossy <==> before || S * Pow2(e) != v)
    ensures d.inexact <==> before || Value(d) != v
    ensures if e == MAX_EXP && S >= H_SIZE * L_SIZE
            then d.exp == MAX_EXP && 2 * Value(d) <= v < 2 * Value(d) + 2 * Pow2(MAX_EXP)
            else RoundedDown(d, v)
  {
    hide Pow2, Normalized, Fits;
    var P := Pow2(e);
    if S >= H_SIZE * L_SIZE {
      Pow2Positive(e);
      NextPow(e);
      CutInHalf(S, P, v);
      HalfDouble(S / 2, P);
    }
  }

  lemma CutInHalf(S: nat, P: nat, v: nat)
    requires P > 0 && S >= 2 && S * P <= v < S * P + P
    ensures var h := S / 2 * P; h > 0 && 2 * h <= v < 2 * h + 2 * P && (v == 2 * h <==> v == S * P && S % 2 == 0)
  {
    Halved(S, P);
    MulMono(1, S / 2, P);
  }

  lemma Halved(S: nat, P: nat)
    ensures S * P == 2 * (S / 2 * P) + S % 2 * P
  {
    Distribute(2 * (S / 2), S % 2, P);
    Assoc(2, S / 2, P);
  }

  lemma Distribute(a: nat, b: nat, P: nat)
    ensures (a + b) * P == a * P + b * P
  {
  }

  /** The operand with the larger exponent is not cut; if that is positive, its mantissa is full. */
  lemma LargerMantissa(d1: Double, d2: Double, r1: Double, r2: Double)
    requires Normalized(d1) && Normalized(d2) && Fits(r1) && Fits(r2)
    requires r1.exp == if d1.exp < d2.exp then d2.exp else d1.exp
    requires Aligned(d1, r1, r1.exp) && Aligned(d2, r2, r1.exp)
    ensures r1.exp > 0 ==> Mantissa(r1) + Mantissa(r2) >= H_SIZE / 2 * L_SIZE
    ensures Value(d1) == Value(r1) || Value(d2) == Value(r2)
    ensures r1.exp == 0 ==> Value(d1) == Value(r1) && Value(d2) == Value(r2)
    ensures !r1.inexact ==> !d1.inexact && Value(d1) == Value(r1)
    ensures !r2.inexact ==> !d2.inexact && Value(d2) == Value(r2)
  {
    hide Pow2;
    PowZero();
    AlignedValue(d1, r1, r1.exp);
    AlignedValue(d2, r2, r1.exp);
  }

  lemma AddNormalized(d1: Double, d2: Double, r1: Double, r2: Double, d: Double)
    requires Fits(r1) && Fits(r2)
    requires r1.exp > 0 ==> Mantissa(r1) + Mantissa(r2) >= H_SIZE / 2 * L_SIZE
    requires Summed(d, Mantissa(r1) + Mantissa(r2), r1.exp, r1.inexact || r2.inexact)
    ensures Normalized(d)
  {
  }

  lemma ShiftLeft(m: nat, e: nat)
    requires e > 0
    ensures (2 * m) * Pow2(e - 1) == m * Pow2(e)
  {
  }

  lemma DoubleMantissa(h: nat, l: nat)
    requires h < H_SIZE / 2 && l < L_SIZE
    ensures 2 * h + l / MSB < H_SIZE && 2 * l % L_SIZE < L_SIZE
    ensures (2 * h + l / MSB) * L_SIZE + 2 * l % L_SIZE == 2 * (h * L_SIZE + l)
  {
  }

  /** D_normalize: shift left as long as the exponent allows; nothing is lost. */
  method Normalize(d0: Double) returns (d: Double)
    requires Fits(d0)
    ensures Normalized(d) && Value(d) == Value(d0) && d.inexact == d0.inexact
  {
    hide Pow2;
    d := d0;
    if d0.l == 0 && d0.h == 0 {
      return d.(exp := 0);
    }
    var h: nat, l: nat, exp: nat := d0.h, d0.l, d0.exp;
    while exp > 0 && h < H_SIZE / 2
      invariant h < H_SIZE && l < L_SIZE && exp <= MAX_EXP
      invariant (h * L_SIZE + l) * Pow2(exp) == Value(d0)
      decreases exp
    {
      ShiftLeft(h * L_SIZE + l, exp);
      DoubleMantissa(h, l);
      h := 2 * h + l / MSB;
      l := 2 * l % L_SIZE;
      exp := exp - 1;
    }
    d := Double(d0.inexact, exp, h, l);
  }

  /** d is a normalized number not above c and marked inexact exactly if it is below; at most k parts
      in 2^46 are lost, and nothing of a number below 2^47. */
  ghost predicate Approximates(d: Double, c: nat, k: nat) {
    && Normalized(d) && Value(d) <= c && (d.inexact <==> Value(d) != c)
    && (c - Value(d)) * Pow2(46) <= k * c
    && (c < Pow2(47) ==> Value(d) == c)
  }

  lemma ApproximatesMore(d: Double, c: nat, k: nat, k': nat)
    requires Approximates(d, c, k) && k <= k'
    ensures Approximates(d, c, k')
  {
    hide Pow2;
    MulMono(k, k', c);
  }

  lemma Assoc(a: nat, b: nat, c: nat)
    ensures a * (b * c) == (a * b) * c
  {
  }

  /** D_times2up: multiplication by a power of two, which loses nothing unless the exponent
      overflows. */
  method Times2Up(d0: Double, exp: nat) returns (d: Double)
    requires Normalized(d0)
    ensures Normalized(d)
    ensures if exp + d0.exp <= MAX_EXP then Value(d) == Value(d0) * Pow2(exp) && d.inexact == d0.inexact
            else Value(d) == Mantissa(d0) * Pow2(MAX_EXP) && d.inexact
  {
    hide Pow2;
    d := d0;
    if exp + d.exp <= MAX_EXP {
      d := d.(exp := exp + d.exp);
      Pow2Add(d0.exp, exp);
      Assoc(Mantissa(d), Pow2(d0.exp), Pow2(exp));
    } else {
      d := d.(exp := MAX_EXP, inexact := true);
    }
    d := Normalize(d);
  }

  /** The exponent cannot overflow as long as the result is at most 2^MAX_EXP. */
  lemma RoomForExponent(d: Double, exp: nat)
    requires Normalized(d) && exp <= MAX_EXP && Value(d) * Pow2(exp) <= Pow2(MAX_EXP)
    ensures exp + d.exp <= MAX_EXP
  {
    hide Pow2;
    if d.exp > 0 && exp + d.exp > MAX_EXP {
      Pow2Positive(MAX_EXP);
      Pow2Add(d.exp, exp);
      Pow2Mono(MAX_EXP, d.exp + exp);
      Assoc(Mantissa(d), Pow2(d.exp), Pow2(exp));
      MulMono(2, Mantissa(d), Pow2(d.exp + exp));
      assert false;
    }
  }

  lemma Scaled(d0: Double, exp: nat, c: nat, k: nat, d: Double)
    requires Approximates(d0, c, k) && Normalized(d)
    requires Value(d) == Value(d0) * Pow2(exp) && d.inexact == d0.inexact
    ensures Approximates(d, c * Pow2(exp), k)
  {
    hide Pow2;
    var P, loss := Pow2(exp), c - Value(d0);
    Pow2Positive(exp);
    Distribute(Value(d0), loss, P);
    Commutes(loss, P);
    Assoc(P, loss, Pow2(46));
    Commutes(P, loss * Pow2(46));
    MulMono(loss * Pow2(46), k * c, P);
    Assoc(k, c, P);
    MulMono(1, P, c);
    Commutes(P, c);
    MulMono(1, loss, P);
  }

  /** The same for approximations. */
  method ScaleCount(d0: Double, exp: nat, ghost c: nat, ghost k: nat) returns (d: Double)
    requires Approximates(d0, c, k) && exp <= MAX_EXP && c * Pow2(exp) <= Pow2(MAX_EXP)
    ensures Approximates(d, c * Pow2(exp), k)
  {
    hide Pow2;
    MulMono(Value(d0), c, Pow2(exp));
    RoomForExponent(d0, exp);
    d := Times2Up(d0, exp);
    Scaled(d0, exp, c, k, d);
  }

  /** D_2up */
  method TwoUp(exp: nat) returns (d: Double)
    requires exp <= MAX_EXP
    ensures Approximates(d, Pow2(exp), 0)
  {
    hide Pow2;
    PowZero();
    Pow2Mono(exp, MAX_EXP);
    d := ScaleCount(ONE, exp, 1, 0);
  }

  /** A sum of two approximations loses one part more. */
  method AddCounts(d1: Double, d2: Double, ghost c1: nat, ghost c2: nat, ghost k: nat) returns (d: Double)
    requires Approximates(d1, c1, k) && Approximates(d2, c2, k) && c1 + c2 <= Pow2(MAX_EXP)
    ensures Approximates(d, c1 + c2, k + 1)
  {
    hide Pow2;
    d := Add(d1, d2);
    NoOverflow(d1, d2, d);
    AddLosses(d1, d2, d, c1, c2, k);
  }

  lemma NoOverflow(d1: Double, d2: Double, d: Double)
    requires Normalized(d1) && Normalized(d2) && SumOk(d1, d2, d) && Value(d1) + Value(d2) <= Pow2(MAX_EXP)
    ensures RoundedDown(d, Value(d1) + Value(d2))
  {
    hide Pow2;
    Pow2Positive(MAX_EXP);
    MulMono(1, Mantissa(d), Pow2(MAX_EXP));
  }

  lemma AddLosses(d1: Double, d2: Double, d: Double, c1: nat, c2: nat, k: nat)
    requires Approximates(d1, c1, k) && Approximates(d2, c2, k)
    requires SumOk(d1, d2, d) && RoundedDown(d, Value(d1) + Value(d2))
    ensures Approximates(d, c1 + c2, k + 1)
  {
    hide Pow2;
    var v, Q := Value(d1) + Value(d2), Pow2(46);
    RoundingLoss(d, v);
    Distribute(c1 - Value(d1), c2 - Value(d2), Q);
    Distribute(c1 + c2 - v, v - Value(d), Q);
    LossSum(k, c1, c2);
  }

  lemma LossSum(k: nat, c1: nat, c2: nat)
    ensures k * c1 + k * c2 + (c1 + c2) == (k + 1) * (c1 + c2)
  {
  }

  /** -1, 0 or 1 as a is less than, equal to or greater than b. */
  function Sign(a: nat, b: nat): int {
    if a < b then -1 else if a == b then 0 else 1
  }

  lemma SmallerExponent(d1: Double, d2: Double)
    requires Normalized(d1) && Normalized(d2) && d1.exp < d2.exp
    ensures Value(d1) < Value(d2)
  {
    hide Pow2;
    Pow2Words();
    Pow2Half();
    NextPow(d1.exp);
    Pow2Positive(d1.exp);
    Pow2Mono(d1.exp + 1, d2.exp);
    SmallerScaled(Mantissa(d1), Mantissa(d2), Pow2(d1.exp), Pow2(d2.exp), Pow2(46));
  }

  lemma SmallerScaled(m: nat, n: nat, k: nat, P: nat, Q: nat)
    requires m < 2 * Q && Q <= n && 0 < k && 2 * k <= P && Q > 0
    ensures m * k < n * P
  {
    MulLess(m, 2 * Q, k);
    TwoOver(k, Q);
    MulMono(2 * k, P, Q);
    Commutes(P, Q);
    MulMono(Q, n, P);
  }

  lemma SameExponent(d1: Double, d2: Double)
    requires Fits(d1) && Fits(d2) && d1.exp == d2.exp
    ensures Sign(Value(d1), Value(d2)) == Sign(Mantissa(d1), Mantissa(d2))
  {
    hide Pow2;
    Pow2Positive(d1.exp);
    MulMono(Mantissa(d1) + 1, Mantissa(d2), Pow2(d1.exp));
    MulMono(Mantissa(d2) + 1, Mantissa(d1), Pow2(d1.exp));
  }

  /** D_compare: the order of the values. */
  method Compare(d1: Double, d2: Double) returns (r: int)
    requires Normalized(d1) && Normalized(d2)
    ensures r == if Value(d1) < Value(d2) then -1 else if Value(d1) > Value(d2) then 1 else 0
  {
    if d1.exp < d2.exp {
      SmallerExponent(d1, d2);
      return -1;
    }
    if d1.exp > d2.exp {
      SmallerExponent(d2, d1);
      return 1;
    }
    SameExponent(d1, d2);
    if d1.h < d2.h {
      return -1;
    }
    if d1.h > d2.h {
      return 1;
    }
    if d1.l < d2.l {
      return -1;
    }
    if d1.l > d2.l {
      return 1;
    }
    return 0;
  }

  lemma WrapLess(x1: nat, x2: nat)
    requires x1 < MSB && x2 < MSB
    ensures var l := (x1 + L_SIZE - x2) % L_SIZE;
      if x1 < x2 then l == x1 + L_SIZE - x2 && l / MSB == 1 && l % MSB == x1 + MSB - x2
      else l == x1 - x2 && l / MSB == 0 && l % MSB == x1 - x2
  {
    if x1 < x2 {
      DivUnique(x1 + L_SIZE - x2, L_SIZE, 0, x1 + L_SIZE - x2);
      DivUnique(x1 + L_SIZE - x2, MSB, 1, x1 + MSB - x2);
    } else {
      DivUnique(x1 + L_SIZE - x2, L_SIZE, 1, x1 - x2);
      DivUnique(x1 - x2, MSB, 0, x1 - x2);
    }
  }

  /** The subtraction of two low words, the borrow found from the top bits. */
  method SubLow(l1: nat, l2: nat) returns (l: nat, borrow: nat)
    requires l1 < L_SIZE && l2 < L_SIZE
    ensures l < L_SIZE && borrow <= 1 && l == l1 - l2 + borrow * L_SIZE
  {
    var msb1, msb2 := l1 / MSB, l2 / MSB;
    ghost var x1, x2 := l1 % MSB, l2 % MSB;
    assert l1 == msb1 * MSB + x1 && l2 == msb2 * MSB + x2 && msb1 <= 1 && msb2 <= 1;
    l := (l1 % MSB + L_SIZE - l2 % MSB) % L_SIZE;
    WrapLess(x1, x2);
    var msb := l / MSB;
    var count := msb1 + msb2 + msb;
    l := if count % 2 == 1 then l % MSB + MSB else l % MSB;
    borrow := ((1 - msb1) + msb2 + msb) / 2;
  }

  /** The subtraction of two mantissas word by word; under reports a negative difference. */
  method SubMantissas(h1: nat, l1: nat, h2: nat, l2: nat) returns (h: nat, l: nat, under: bool)
    requires h1 < H_SIZE && h2 < H_SIZE && l1 < L_SIZE && l2 < L_SIZE
    ensures under <==> h1 * L_SIZE + l1 < h2 * L_SIZE + l2
    ensures !under ==> h < H_SIZE && l < L_SIZE && h * L_SIZE + l == (h1 * L_SIZE + l1) - (h2 * L_SIZE + l2)
  {
    var borrow;
    l, borrow := SubLow(l1, l2);
    h := (h1 + L_SIZE - h2 - borrow) % L_SIZE;
    assert h == if h1 < h2 + borrow then h1 + L_SIZE - h2 - borrow else h1 - h2 - borrow;
    under := (h / H_SIZE) % 2 == 1;
  }

  /** What subtraction promises: an inexact 0 for a negative difference; otherwise at least the true
      difference, off by less than a unit of the larger exponent, and marked exact if it is exact. */
  ghost predicate DifferenceOk(d1: Double, d2: Double, d: Double) {
    var v1, v2 := Value(d1), Value(d2);
    && Normalized(d)
    && (v1 < v2 ==> d == ZERO.(inexact := true))
    && (v2 <= v1 ==> v1 - v2 <= Value(d) < v1 - v2 + Pow2(d1.exp))
    && (!d.inexact <==> !d1.inexact && !d2.inexact && v2 <= v1 && Value(d) == v1 - v2)
  }

  /** Alignment keeps the order: only the smaller operand is cut. */
  lemma AlignedOrder(d1: Double, d2: Double, r1: Double, r2: Double)
    requires Normalized(d1) && Normalized(d2) && Fits(r1) && Fits(r2)
    requires r1.exp == r2.exp == if d1.exp < d2.exp then d2.exp else d1.exp
    requires Aligned(d1, r1, r1.exp) && Aligned(d2, r2, r1.exp)
    ensures Mantissa(r1) < Mantissa(r2) <==> Value(d1) < Value(d2)
    ensures Value(d2) <= Value(d1) ==> d2.exp <= d1.exp && r1.exp == d1.exp && Value(r1) == Value(d1) && r1.inexact == d1.inexact
  {
    hide Pow2;
    PowZero();
    AlignedValue(d1, r1, r1.exp);
    AlignedValue(d2, r2, r1.exp);
    if d1.exp < d2.exp {
      SmallerExponent(d1, d2);
      HalfCut(d1, d2.exp - d1.exp);
    } else if d2.exp < d1.exp {
      SmallerExponent(d2, d1);
      HalfCut(d2, d1.exp - d2.exp);
    } else {
      SameExponent(d1, d2);
    }
  }

  /** A cut mantissa has no top bit. */
  lemma HalfCut(d: Double, k: nat)
    requires Fits(d) && k > 0
    ensures Pow2(k) > 0 && Mantissa(d) / Pow2(k) < H_SIZE / 2 * L_SIZE
  {
    hide Pow2;
    PowZero();
    NextPow(0);
    Pow2Mono(1, k);
    HalfBound(Mantissa(d), Pow2(k), H_SIZE / 2 * L_SIZE);
  }

  lemma HalfBound(x: nat, p: nat, B: nat)
    requires x < 2 * B && 2 <= p
    ensures x / p < B
  {
    MulMono(2, p, B);
    QuotientBound(x, p, B);
  }

  lemma Difference(d1: Double, d2: Double, r1: Double, r2: Double, d: Double)
    requires Normalized(d1) && Normalized(d2) && Fits(r1) && Fits(r2)
    requires r1.exp == r2.exp == if d1.exp < d2.exp then d2.exp else d1.exp
    requires Aligned(d1, r1, r1.exp) && Aligned(d2, r2, r1.exp)
    requires Value(d2) <= Value(d1) && Normalized(d) && d.inexact == (r1.inexact || r2.inexact)
    requires Mantissa(r2) <= Mantissa(r1) && Value(d) == (Mantissa(r1) - Mantissa(r2)) * Pow2(r1.exp)
    ensures DifferenceOk(d1, d2, d)
  {
    hide Pow2;
    AlignedOrder(d1, d2, r1, r2);
    AlignedValue(d2, r2, r1.exp);
    Sub(Mantissa(r1), Mantissa(r2), Pow2(r1.exp));
  }

  /** D_sub */
  method Subtract(d1: Double, d2: Double) returns (d: Double)
    requires Normalized(d1) && Normalized(d2)
    ensures DifferenceOk(d1, d2, d)
  {
    hide Pow2, Aligned;
    var r1, r2 := Align(d1, d2);
    AlignedOrder(d1, d2, r1, r2);
    var h, l, under := SubMantissas(r1.h, r1.l, r2.h, r2.l);
    if under {
      return ZERO.(inexact := true);
    }
    d := Double(r1.inexact || r2.inexact, r1.exp, h, l);
    d := Normalize(d);
    Difference(d1, d2, r1, r2, d);
  }
}
