/** Arithmetic modulo a prime, on integer representatives.

    The scalars of the signature scheme live in the prime field of the curve order. Here a field
    element is any integer, and two integers are the same element when they are congruent. */
module PrimeField {
  import opened Modular

  predicate Divides(d: int, n: int)
    requires d != 0
  {
    n % d == 0
  }

  predicate IsPrime(p: int) {
    p > 1 && forall d :: 1 < d < p ==> !Divides(d, p)
  }

  predicate Cong(p: int, a: int, b: int)
    requires p > 0
  {
    a % p == b % p
  }

  lemma CongIntro(p: int, a: int, k: int)
    requires p > 0
    ensures Cong(p, a + k * p, a)
  {
    var q, r := a / p, a % p;
    assert a + k * p == (q + k) * p + r;
    ModUnique(p, a + k * p, q + k, r);
  }

  lemma CongElim(p: int, a: int, b: int) returns (k: int)
    requires p > 0 && Cong(p, a, b)
    ensures a == b + k * p
  {
    k := a / p - b / p;
  }

  lemma CongAdd(p: int, a: int, a': int, b: int, b': int)
    requires p > 0 && Cong(p, a, a') && Cong(p, b, b')
    ensures Cong(p, a + b, a' + b')
  {
    var k := CongElim(p, a, a');
    var l := CongElim(p, b, b');
    assert a + b == (a' + b') + (k + l) * p;
    CongIntro(p, a' + b', k + l);
  }

  lemma CongMul(p: int, a: int, a': int, b: int, b': int)
    requires p > 0 && Cong(p, a, a') && Cong(p, b, b')
    ensures Cong(p, a * b, a' * b')
  {
    CongScale(p, b, a, a');
    CongScale(p, a', b, b');
  }

  lemma CongScale(p: int, c: int, b: int, b': int)
    requires p > 0 && Cong(p, b, b')
    ensures Cong(p, c * b, c * b')
  {
    var k := CongElim(p, b, b');
    ScaleWitness(p, c, b, b', k);
  }

  lemma ScaleWitness(p: int, c: int, b: int, b': int, k: int)
    requires p > 0 && b == b' + k * p
    ensures Cong(p, c * b, c * b')
  {
    assert c * b == c * b' + (c * k) * p;
    CongIntro(p, c * b', c * k);
  }

  lemma CongReduce(p: int, a: int)
    requires p > 0
    ensures Cong(p, a % p, a)
  {
    CongIntro(p, a, -(a / p));
    assert a + (-(a / p)) * p == a % p;
  }

  /** Extended Euclid: the greatest common divisor with its two coefficients. */
  function Bezout(a: nat, b: nat): (int, int, int)
    decreases b
  {
    if b == 0 then (a, 1, 0) else
      var (g, x, y) := Bezout(b, a % b);
      (g, y, x - (a / b) * y)
  }

  /** `g` is a common divisor of `a` and `b`, and a combination of them. */
  predicate IsCombination(r: (int, int, int), a: int, b: int) {
    r.0 > 0 && r.0 == a * r.1 + b * r.2 && Divides(r.0, a) && Divides(r.0, b)
  }

  lemma {:induction false} BezoutLaw(a: nat, b: nat)
    requires a > 0
    ensures IsCombination(Bezout(a, b), a, b)
    decreases b
  {
    if b > 0 {
      BezoutLaw(b, a % b);
      BezoutStep(a, b, Bezout(b, a % b));
    }
  }

  lemma BezoutStep(a: nat, b: nat, c: (int, int, int))
    requires b > 0 && IsCombination(c, b, a % b)
    ensures IsCombination((c.0, c.2, c.1 - (a / b) * c.2), a, b)
  {
    var q, r := a / b, a % b;
    assert a == b * q + r;
    Rebalance(b, q, r, c.1, c.2);
    SumDivisible(c.0, b, q, r);
  }

  lemma Rebalance(b: int, q: int, r: int, x: int, y: int)
    ensures b * x + r * y == (b * q + r) * y + b * (x - q * y)
  {
    assert (b * q + r) * y == b * (q * y) + r * y;
    assert b * (x - q * y) == b * x - b * (q * y);
  }

  lemma SumDivisible(g: int, b: int, q: int, r: int)
    requires g > 0 && Divides(g, b) && Divides(g, r)
    ensures Divides(g, b * q + r)
  {
    CongMul(g, b, 0, q, q);
    CongAdd(g, b * q, 0, r, 0);
  }

  /** The multiplicative inverse modulo `p`, and 0 for multiples of `p`. */
  function Inverse(p: int, a: int): int
    requires IsPrime(p)
  {
    if a % p == 0 then 0 else Bezout(a % p, p).1
  }

  lemma InverseLaw(p: int, a: int)
    requires IsPrime(p) && a % p != 0
    ensures Cong(p, a * Inverse(p, a), 1)
  {
    BezoutLaw(a % p, p);
    var (g, x, y) := Bezout(a % p, p);
    assert Divides(g, p) && Divides(g, a % p);
    assert g == 1;
    CombinationInverts(p, a % p, x, y);
    CongReduce(p, a);
    CongMul(p, a % p, a, x, x);
  }

  lemma CombinationInverts(p: int, r: int, x: int, y: int)
    requires p > 1 && 1 == r * x + p * y
    ensures Cong(p, r * x, 1)
  {
    assert r * x == 1 + (-y) * p;
    CongIntro(p, 1, -y);
  }

  /** A prime field has no zero divisors, so factors can be cancelled. */
  lemma CongCancel(p: int, c: int, a: int, b: int)
    requires IsPrime(p) && c % p != 0 && Cong(p, c * a, c * b)
    ensures Cong(p, a, b)
  {
    var i := Inverse(p, c);
    InverseLaw(p, c);
    CongScale(p, i, c * a, c * b);
    CongMul(p, c * i, 1, a, a);
    CongMul(p, c * i, 1, b, b);
    assert i * (c * a) == (c * i) * a && i * (c * b) == (c * i) * b;
  }
}
