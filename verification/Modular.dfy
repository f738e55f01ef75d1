/** Remainders, and why the two sides of a Diffie-Hellman exchange agree. */
module Modular {
  import opened Bytes

  lemma Multiple(k: int, d: nat)
    requires k >= 1
    ensures k * d >= d
  {
    assert k * d == (k - 1) * d + d;
  }

  lemma RemainderIsUnique(n: nat, q: int, r: nat, d: nat)
    requires r < d && n == q * d + r
    ensures n % d == r
  {
    var p := n / d;
    assert n == p * d + n % d;
    assert (p - q) * d == r - n % d;
    if p > q { Multiple(p - q, d); }
    if q > p { Multiple(q - p, d); }
  }

  lemma Expand(q: nat, p: nat, r: nat, y: nat)
    ensures (q * p + r) * y == (q * y) * p + r * y
  {
    assert (q * p) * y == (q * y) * p by {
      assert p * y == y * p;
      assert q * (p * y) == q * (y * p);
    }
  }

  lemma Collect(a: nat, k: nat, p: nat)
    ensures a * p + k * p == (a + k) * p
  {}

  /** A factor may be replaced by its remainder. */
  lemma ReduceFactor(x: nat, y: nat, p: nat)
    requires p > 0
    ensures (x % p * y) % p == (x * y) % p
  {
    var q, r := x / p, x % p;
    var z := r * y;
    Division(x, p);
    Division(z, p);
    ExpandFactor(x, q, p, r, y);
    Resum(x * y, q * y, p, z, z / p, z % p);
    RemainderIsUnique(x * y, q * y + z / p, z % p, p);
  }

  lemma Division(x: nat, p: nat)
    requires p > 0
    ensures x == x / p * p + x % p && x % p < p
  {}

  lemma ExpandFactor(x: nat, q: nat, p: nat, r: nat, y: nat)
    requires x == q * p + r
    ensures x * y == (q * y) * p + r * y
  {
    Expand(q, p, r, y);
  }

  lemma Resum(n: nat, a: nat, p: nat, z: nat, k: nat, s: nat)
    requires n == a * p + z && z == k * p + s
    ensures n == (a + k) * p + s
  {
    Collect(a, k, p);
  }

  lemma Commutes(x: nat, y: nat)
    ensures x * y == y * x
  {}

  /** Products of congruent factors are congruent. */
  lemma CongruentProducts(x: nat, y: nat, a: nat, b: nat, p: nat)
    requires p > 0 && x % p == a % p && y % p == b % p
    ensures (x * y) % p == (a * b) % p
  {
    ReduceFactor(x, y, p);
    ReduceFactor(a, y, p);
    Commutes(a, y);
    ReduceFactor(y, a, p);
    ReduceFactor(b, a, p);
    Commutes(a, b);
  }

  lemma RemainderOfRemainder(x: nat, p: nat)
    requires p > 0
    ensures (x % p) % p == x % p
  {
    RemainderIsUnique(x % p, 0, x % p, p);
  }

  /** A base may be reduced before it is raised to a power. */
  lemma {:induction false} ReduceBase(x: nat, e: nat, p: nat)
    requires p > 0
    ensures Pow(x % p, e) % p == Pow(x, e) % p
  {
    if e > 0 {
      ReduceBase(x, e - 1, p);
      RemainderOfRemainder(x, p);
      CongruentProducts(x % p, Pow(x % p, e - 1), x, Pow(x, e - 1), p);
    }
  }

  lemma Regroup(x: nat, y: nat, a: nat, b: nat)
    ensures (x * y) * (a * b) == (x * a) * (y * b)
  {
    calc {
      (x * y) * (a * b);
      x * (y * (a * b));
      { assert y * (a * b) == a * (y * b); }
      x * (a * (y * b));
      (x * a) * (y * b);
    }
  }

  lemma {:induction false} PowOfProduct(x: nat, y: nat, n: nat)
    ensures Pow(x * y, n) == Pow(x, n) * Pow(y, n)
  {
    if n > 0 {
      PowOfProduct(x, y, n - 1);
      Regroup(x, y, Pow(x, n - 1), Pow(y, n - 1));
    }
  }

  lemma {:induction false} PowOfOne(n: nat)
    ensures Pow(1, n) == 1
  {
    if n > 0 { PowOfOne(n - 1); }
  }

  /** Exponents commute. */
  lemma {:induction false} PowersCommute(g: nat, a: nat, b: nat)
    ensures Pow(Pow(g, a), b) == Pow(Pow(g, b), a)
  {
    if a == 0 {
      PowOfOne(b);
    } else {
      PowOfProduct(g, Pow(g, a - 1), b);
      PowersCommute(g, a - 1, b);
    }
  }

  /** `pow(base, exponent, modulus)`. */
  function PowMod(base: nat, exponent: nat, modulus: nat): (r: nat)
    requires modulus > 0
    ensures r < modulus
  {
    Pow(base, exponent) % modulus
  }

  /** Raising the other side's public value to one's own exponent gives both sides the same number. */
  lemma SecretsAgree(g: nat, a: nat, b: nat, p: nat)
    requires p > 0
    ensures PowMod(PowMod(g, a, p), b, p) == PowMod(PowMod(g, b, p), a, p)
  {
    ReduceBase(Pow(g, a), b, p);
    ReduceBase(Pow(g, b), a, p);
    PowersCommute(g, a, b);
  }
}
