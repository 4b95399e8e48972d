/** Remainders; those of the cache's slots are defined by repeated subtraction, so that the solver
    does not have to divide by a variable. */
module Modular {

  function Mod(q: nat, n: nat): (r: nat)
    requires n > 0
    ensures r < n
    decreases q
  {
    if q < n then q else Mod(q - n, n)
  }

  lemma {:induction false} ModIsRemainder(q: nat, n: nat)
    requires n > 0
    ensures Mod(q, n) == q % n
  {
    if q >= n {
      ModIsRemainder(q - n, n);
      assert q == ((q - n) / n + 1) * n + (q - n) % n;
      ModUnique(n, q, (q - n) / n + 1, (q - n) % n);
    }
  }

  /** Division with remainder has one answer. */
  lemma ModUnique(p: int, a: int, q: int, r: int)
    requires p > 0 && 0 <= r < p && a == q * p + r
    ensures a % p == r
  {
    var q', r' := a / p, a % p;
    assert (q - q') * p == r' - r;
    MulBound(q - q', p);
    MulBound(q' - q, p);
  }

  lemma MulBound(k: int, p: int)
    requires p > 0
    ensures k >= 1 ==> k * p >= p
  {
  }

  /** The next larger number with the same remainder is a whole `n` away. */
  lemma NextCongruent(n: nat, q: nat, q': nat)
    requires n > 0 && q < q' && Mod(q, n) == Mod(q', n)
    ensures q + n <= q'
  {
    ModIsRemainder(q, n);
    ModIsRemainder(q', n);
    var d := q' / n - q / n;
    assert q' - q == d * n;
    MulBound(d, n);
  }
}
