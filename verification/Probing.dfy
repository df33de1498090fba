/** Quadratic probing: from any start the first (p + 1) / 2 probes of a table of prime size p differ. */
module Probing {
  ghost predicate Prime(p: nat) {
    p > 2 && forall d {:trigger p % d} :: 1 < d < p ==> p % d != 0
  }

  /** The bucket of probe number k. */
  function Probe(h: nat, k: nat, p: nat): (i: nat)
    requires p > 0
    ensures i < p
  {
    (h + k * k) % p
  }

  lemma ModZero(x: nat, y: nat, q: nat, p: nat)
    requires p > 0 && x % p == 0 && y == q * p - x
    ensures y % p == 0
  {
    var k := x / p;
    assert x == k * p;
    assert y == (q - k) * p;
    MultipleMod(q - k, p);
  }

  lemma MultipleMod(k: int, p: nat)
    requires p > 0 && k * p >= 0
    ensures (k * p) % p == 0
  {
    Remainder(k * p, k, 0, p);
  }

  lemma MultipleOf(x: nat, q: nat, p: nat)
    requires p > 0 && x % p == 0
    ensures (q * x) % p == 0
  {
    var k := x / p;
    assert q * x == (q * k) * p by {
      assert x == k * p;
      assert q * (k * p) == (q * k) * p;
    }
    assert q * x >= 0;
    MultipleMod(q * k, p);
  }

  /** A prime that divides a product divides a factor. */
  lemma {:induction false} Euclid(p: nat, a: nat, b: nat)
    requires Prime(p) && 0 < a < p && (a * b) % p == 0
    ensures b % p == 0
    decreases a
  {
    if a > 1 {
      var q, r := p / a, p % a;
      assert p == q * a + r;
      assert r * b == b * p - q * (a * b) by {
        assert r == p - q * a;
        assert (p - q * a) * b == p * b - (q * a) * b;
        assert (q * a) * b == q * (a * b);
      }
      MultipleOf(a * b, q, p);
      ModZero(q * (a * b), r * b, b, p);
      Euclid(p, r, b);
    }
  }

  lemma SameRemainder(x: nat, y: nat, p: nat)
    requires p > 0 && x % p == y % p && x <= y
    ensures (y - x) % p == 0
  {
    var k, l := x / p, y / p;
    assert y - x == (l - k) * p by {
      assert x == k * p + x % p && y == l * p + y % p;
    }
    MultipleMod(l - k, p);
  }

  lemma ProbesMeet(h: nat, i: nat, j: nat, p: nat)
    requires p > 0 && i < j
    ensures Probe(h, i, p) == Probe(h, j, p) ==> ((j - i) * (j + i)) % p == 0
  {
    Squares(i, j);
    if Probe(h, i, p) == Probe(h, j, p) {
      SameRemainder(h + i * i, h + j * j, p);
    }
  }

  lemma SmallMod(x: nat, p: nat)
    requires 0 < x < p
    ensures x % p != 0
  {
  }

  /** Two probes below half the size never meet. */
  lemma ProbesDiffer(h: nat, i: nat, j: nat, p: nat)
    requires Prime(p) && i < j && 2 * j < p
    ensures Probe(h, i, p) != Probe(h, j, p)
  {
    hide Probe, Prime;
    ProbesMeet(h, i, j, p);
    SmallMod(j + i, p);
    if ((j - i) * (j + i)) % p == 0 {
      Euclid(p, j - i, j + i);
    }
  }

  lemma Squares(i: nat, j: nat)
    requires i < j
    ensures i * i <= j * j && j * j - i * i == (j - i) * (j + i)
  {
    assert (j - i) * (j + i) == (j - i) * j + (j - i) * i;
  }

  /** One step of probing by odd increments. */
  lemma NextProbe(h: nat, k: nat, p: nat)
    requires p > 0 && 2 * k + 1 < p
    ensures Probe(h, k + 1, p) ==
      if Probe(h, k, p) + (2 * k + 1) >= p then Probe(h, k, p) + (2 * k + 1) - p else Probe(h, k, p) + (2 * k + 1)
  {
    var x, d := h + k * k, 2 * k + 1;
    assert h + (k + 1) * (k + 1) == x + d;
    AddMod(x, d, p);
  }

  lemma AddMod(x: nat, d: nat, p: nat)
    requires p > 0 && d < p
    ensures (x + d) % p == if x % p + d >= p then x % p + d - p else x % p + d
  {
    var q, r := x / p, x % p;
    var s := if r + d >= p then r + d - p else r + d;
    var q' := if r + d >= p then q + 1 else q;
    assert x + d == q' * p + s by {
      assert x == q * p + r;
      assert (q + 1) * p == q * p + p;
    }
    Remainder(x + d, q', s, p);
  }

  lemma Remainder(x: nat, q: int, s: nat, p: nat)
    requires p > 0 && s < p && x == q * p + s
    ensures x % p == s
  {
    var k, r := x / p, x % p;
    assert x == k * p + r;
    assert (q - k) * p == r - s;
    FarApart(q - k, p);
  }

  lemma FarApart(a: int, p: nat)
    requires p > 0
    ensures 0 - p < a * p < p ==> a == 0
  {
    if a >= 1 {
      assert a * p == (a - 1) * p + p && (a - 1) * p >= 0;
    } else if a <= -1 {
      assert a * p == -((-a - 1) * p) - p && (-a - 1) * p >= 0;
    }
  }
}
