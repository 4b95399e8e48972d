/** Lagrange interpolation at zero over a prime field: the mathematics behind dealing key shares
    from a polynomial and recovering the master signature from partial ones. */
module Interpolation {
  import opened Modular
  import opened PrimeField

  /** The polynomial with coefficients `cs`, lowest degree first, at `x`. */
  function Eval(cs: seq<int>, x: int): int {
    if cs == [] then 0 else cs[0] + x * Eval(cs[1..], x)
  }

  /** Synthetic division of a polynomial by `x - a`. */
  function Quotient(cs: seq<int>, a: int): (d: seq<int>)
    ensures |d| == if cs == [] then 0 else |cs| - 1
  {
    if |cs| <= 1 then [] else [Eval(cs[1..], a)] + Quotient(cs[1..], a)
  }

  lemma {:induction false} QuotientLaw(cs: seq<int>, a: int, x: int)
    ensures Eval(cs, x) == Eval(cs, a) + (x - a) * Eval(Quotient(cs, a), x)
  {
    if |cs| == 1 {
      assert cs[1..] == [];
    } else if |cs| > 1 {
      QuotientLaw(cs[1..], a, x);
      var ra, rx, q := Eval(cs[1..], a), Eval(cs[1..], x), Eval(Quotient(cs[1..], a), x);
      assert Quotient(cs, a)[1..] == Quotient(cs[1..], a);
      assert Eval(Quotient(cs, a), x) == ra + x * q;
      QuotientArithmetic(ra, rx, q, a, x);
    }
  }

  lemma {:induction false} QuotientArithmetic(ra: int, rx: int, q: int, a: int, x: int)
    requires rx == ra + (x - a) * q
    ensures x * rx == a * ra + (x - a) * (ra + x * q)
  {
    assert x * rx == x * ra + (x - a) * (x * q);
  }

  /** One factor of a Lagrange coefficient at zero: `u / (u - x)`, and 1 for the point itself. */
  function Factor(p: int, u: int, x: int): int
    requires IsPrime(p)
  {
    if u == x then 1 else u * Inverse(p, u - x)
  }

  /** The Lagrange coefficient at zero of the point `x` among the points `ids`. */
  function Coef(p: int, ids: seq<int>, x: int): int
    requires IsPrime(p)
  {
    if ids == [] then 1 else Coef(p, ids[..|ids| - 1], x) * Factor(p, ids[|ids| - 1], x)
  }

  function CoefSum(p: int, xs: seq<int>, ids: seq<int>): int
    requires IsPrime(p)
  {
    if xs == [] then 0 else CoefSum(p, xs[..|xs| - 1], ids) + Coef(p, ids, xs[|xs| - 1])
  }

  /** The values `ys`, taken at the points `xs`, weighted by the coefficients among `ids`. */
  function WeightedSum(p: int, xs: seq<int>, ys: seq<int>, ids: seq<int>): int
    requires IsPrime(p) && |xs| == |ys|
  {
    if xs == [] then 0 else
      var n := |xs| - 1;
      WeightedSum(p, xs[..n], ys[..n], ids) + ys[n] * Coef(p, ids, xs[n])
  }

  /** Distinct nonzero field elements. */
  predicate Points(p: int, ids: seq<int>) {
    && (forall i :: 0 <= i < |ids| ==> 0 < ids[i] < p)
    && (forall i, j :: 0 <= i < j < |ids| ==> ids[i] != ids[j])
  }

  lemma {:induction false} DistinctInvertible(p: int, a: int, b: int)
    requires IsPrime(p) && 0 < a < p && 0 < b < p && a != b
    ensures (a - b) % p != 0 && Cong(p, (a - b) * Inverse(p, a - b), 1)
  {
    DistinctNonzero(p, a, b);
    InverseLaw(p, a - b);
  }

  lemma {:induction false} DistinctNonzero(p: int, a: int, b: int)
    requires p > 0 && 0 < a < p && 0 < b < p && a != b
    ensures (a - b) % p != 0
  {
    if a > b {
      ModUnique(p, a - b, 0, a - b);
    } else {
      ModUnique(p, a - b, -1, a - b + p);
    }
  }

  // --- the coefficients sum to one ------------------------------------------------------------

  /** Neville's relation for one point: removing either of two other points. */
  lemma {:induction false} FactorPair(p: int, a: int, b: int, x: int)
    requires IsPrime(p) && 0 < a < p && 0 < b < p && 0 < x < p && x != a && x != b
    ensures Cong(p, (b - a) * (Factor(p, a, x) * Factor(p, b, x)), b * Factor(p, a, x) - a * Factor(p, b, x))
  {
    DistinctInvertible(p, a, x);
    DistinctInvertible(p, b, x);
    var u, v := Inverse(p, a - x), Inverse(p, b - x);
    CongScale(p, a * b * u, (b - x) * v, 1);
    CongScale(p, -(a * b * v), (a - x) * u, 1);
    CongAdd(p, a * b * u * ((b - x) * v), a * b * u * 1, -(a * b * v) * ((a - x) * u), -(a * b * v) * 1);
    PairArithmetic(a, b, x, u, v);
  }

  lemma {:induction false} PairArithmetic(a: int, b: int, x: int, u: int, v: int)
    ensures a * b * u * ((b - x) * v) + -(a * b * v) * ((a - x) * u) == (b - a) * ((a * u) * (b * v))
    ensures a * b * u * 1 + -(a * b * v) * 1 == b * (a * u) - a * (b * v)
  {
    var w := a * b * u * v;
    assert a * b * u * ((b - x) * v) == w * (b - x);
    assert -(a * b * v) * ((a - x) * u) == -w * (a - x);
    assert w * (b - x) + -w * (a - x) == (b - a) * w;
    assert (b - a) * ((a * u) * (b * v)) == (b - a) * w;
  }

  lemma {:induction false} NevilleSum(p: int, xs: seq<int>, rest: seq<int>, a: int, b: int)
    requires IsPrime(p) && 0 < a < p && 0 < b < p
    requires forall i :: 0 <= i < |xs| ==> 0 < xs[i] < p && xs[i] != a && xs[i] != b
    ensures Cong(p, (b - a) * CoefSum(p, xs, rest + [a, b]),
                    b * CoefSum(p, xs, rest + [a]) - a * CoefSum(p, xs, rest + [b]))
  {
    if xs != [] {
      var n := |xs| - 1;
      var x, init := xs[n], xs[..n];
      NevilleSum(p, init, rest, a, b);
      CoefAppend(p, rest, a, b, x);
      FactorPair(p, a, b, x);
      NevilleStep(p, a, b, Coef(p, rest, x), Factor(p, a, x), Factor(p, b, x),
                  CoefSum(p, init, rest + [a, b]), CoefSum(p, init, rest + [a]), CoefSum(p, init, rest + [b]));
    }
  }

  lemma {:induction false} NevilleStep(p: int, a: int, b: int, c: int, s: int, t: int, sum: int, sumA: int, sumB: int)
    requires p > 0 && Cong(p, (b - a) * sum, b * sumA - a * sumB) && Cong(p, (b - a) * (s * t), b * s - a * t)
    ensures Cong(p, (b - a) * (sum + c * s * t), b * (sumA + c * s) - a * (sumB + c * t))
  {
    CongScale(p, c, (b - a) * (s * t), b * s - a * t);
    CongAdd(p, (b - a) * sum, b * sumA - a * sumB, c * ((b - a) * (s * t)), c * (b * s - a * t));
    assert (b - a) * (sum + c * s * t) == (b - a) * sum + c * ((b - a) * (s * t));
    assert b * (sumA + c * s) - a * (sumB + c * t) == b * sumA - a * sumB + c * (b * s - a * t);
  }

  lemma {:induction false} CoefAppend(p: int, rest: seq<int>, a: int, b: int, x: int)
    requires IsPrime(p)
    ensures Coef(p, rest + [a], x) == Coef(p, rest, x) * Factor(p, a, x)
    ensures Coef(p, rest + [a, b], x) == Coef(p, rest, x) * Factor(p, a, x) * Factor(p, b, x)
    ensures Coef(p, rest + [b], x) == Coef(p, rest, x) * Factor(p, b, x)
  {
    assert (rest + [a])[..|rest|] == rest && (rest + [b])[..|rest|] == rest;
    assert (rest + [a, b])[..|rest| + 1] == rest + [a];
  }

  lemma {:induction false} SinglePoint(p: int, a: int, y: int)
    requires IsPrime(p)
    ensures CoefSum(p, [a], [a]) == 1 && WeightedSum(p, [a], [y], [a]) == y
  {
    assert [a][..0] == [] && [y][..0] == [];
    assert Coef(p, [a], a) == 1;
  }

  /** The Lagrange coefficients of any set of points sum to one. */
  lemma {:induction false} CoefficientsSumToOne(p: int, ids: seq<int>)
    requires IsPrime(p) && Points(p, ids) && ids != []
    ensures Cong(p, CoefSum(p, ids, ids), 1)
    decreases |ids|
  {
    var n := |ids|;
    if n == 1 {
      SinglePoint(p, ids[0], 1);
      assert ids == [ids[0]];
    } else {
      var rest, a, b := ids[..n - 2], ids[n - 2], ids[n - 1];
      assert ids == rest + [a, b];
      assert forall i :: 0 <= i < |rest| ==> rest[i] == ids[i];
      assert Points(p, rest + [a]) && Points(p, rest + [b]);
      CoefficientsSumToOne(p, rest + [a]);
      CoefficientsSumToOne(p, rest + [b]);
      NevilleSum(p, rest, rest, a, b);
      SumOfLastTwo(p, rest, a, b);
    }
  }

  lemma {:induction false} SumOfLastTwo(p: int, rest: seq<int>, a: int, b: int)
    requires IsPrime(p) && 0 < a < p && 0 < b < p && a != b
    requires Cong(p, CoefSum(p, rest + [a], rest + [a]), 1)
    requires Cong(p, CoefSum(p, rest + [b], rest + [b]), 1)
    requires Cong(p, (b - a) * CoefSum(p, rest, rest + [a, b]),
                     b * CoefSum(p, rest, rest + [a]) - a * CoefSum(p, rest, rest + [b]))
    ensures Cong(p, CoefSum(p, rest + [a, b], rest + [a, b]), 1)
  {
    var ids := rest + [a, b];
    var sum, sumA, sumB := CoefSum(p, rest, ids), CoefSum(p, rest, rest + [a]), CoefSum(p, rest, rest + [b]);
    var ca, cb := Coef(p, rest, a), Coef(p, rest, b);
    var u, v := Inverse(p, b - a), Inverse(p, a - b);
    LastTwoSums(p, rest, a, b);
    DistinctInvertible(p, a, b);
    DistinctInvertible(p, b, a);
    LastTwoStep(p, a, b, sum, sumA, sumB, ca, cb, u, v);
    CongCancel(p, b - a, sum + ca * (b * u) + cb * (a * v), 1);
  }

  /** The three sums with the last one or two points split off. */
  lemma {:induction false} LastTwoSums(p: int, rest: seq<int>, a: int, b: int)
    requires IsPrime(p) && a != b
    ensures CoefSum(p, rest + [a], rest + [a]) == CoefSum(p, rest, rest + [a]) + Coef(p, rest, a)
    ensures CoefSum(p, rest + [b], rest + [b]) == CoefSum(p, rest, rest + [b]) + Coef(p, rest, b)
    ensures CoefSum(p, rest + [a, b], rest + [a, b]) == CoefSum(p, rest, rest + [a, b])
              + Coef(p, rest, a) * (b * Inverse(p, b - a)) + Coef(p, rest, b) * (a * Inverse(p, a - b))
  {
    var ids := rest + [a, b];
    CoefAppend(p, rest, a, b, a);
    CoefAppend(p, rest, a, b, b);
    assert Factor(p, a, a) == 1 && Factor(p, b, b) == 1;
    CoefSumAppend(p, rest, a, rest + [a]);
    CoefSumAppend(p, rest, b, rest + [b]);
    CoefSumAppend(p, rest, a, ids);
    CoefSumAppend(p, rest + [a], b, ids);
    assert rest + [a] + [b] == ids;
  }

  lemma {:induction false} CoefSumAppend(p: int, xs: seq<int>, x: int, ids: seq<int>)
    requires IsPrime(p)
    ensures CoefSum(p, xs + [x], ids) == CoefSum(p, xs, ids) + Coef(p, ids, x)
  {
    var longer := xs + [x];
    assert longer[..|longer| - 1] == xs && longer[|longer| - 1] == x;
  }

  lemma {:induction false} LastTwoStep(p: int, a: int, b: int, sum: int, sumA: int, sumB: int, ca: int, cb: int, u: int, v: int)
    requires p > 0 && Cong(p, (b - a) * sum, b * sumA - a * sumB) && Cong(p, sumA + ca, 1) && Cong(p, sumB + cb, 1)
    requires Cong(p, (b - a) * u, 1) && Cong(p, (a - b) * v, 1)
    ensures Cong(p, (b - a) * (sum + ca * (b * u) + cb * (a * v)), (b - a) * 1)
  {
    CongScale(p, ca * b, (b - a) * u, 1);
    CongScale(p, -(cb * a), (a - b) * v, 1);
    CongScale(p, b, sumA + ca, 1);
    CongScale(p, -a, sumB + cb, 1);
    CongAdd(p, (b - a) * sum, b * sumA - a * sumB, ca * b * ((b - a) * u), ca * b * 1);
    CongAdd(p, (b - a) * sum + ca * b * ((b - a) * u), b * sumA - a * sumB + ca * b * 1,
               -(cb * a) * ((a - b) * v), -(cb * a) * 1);
    CongAdd(p, b * (sumA + ca), b * 1, -a * (sumB + cb), -a * 1);
    LastTwoArithmetic(a, b, sum, sumA, sumB, ca, cb, u, v);
  }

  lemma {:induction false} LastTwoArithmetic(a: int, b: int, sum: int, sumA: int, sumB: int, ca: int, cb: int, u: int, v: int)
    ensures (b - a) * sum + ca * b * ((b - a) * u) + -(cb * a) * ((a - b) * v)
         == (b - a) * (sum + ca * (b * u) + cb * (a * v))
    ensures b * sumA - a * sumB + ca * b * 1 + -(cb * a) * 1 == b * (sumA + ca) + -a * (sumB + cb)
    ensures b * 1 + -a * 1 == (b - a) * 1
  {
    assert ca * b * ((b - a) * u) == (b - a) * (ca * (b * u));
    assert -(cb * a) * ((a - b) * v) == (b - a) * (cb * (a * v));
  }

  // --- interpolation ---------------------------------------------------------------------------

  /** Splitting off the last point `a`: the value at `a` factors out and the quotient is left. */
  lemma {:induction false} SplitLastPoint(p: int, xs: seq<int>, ys: seq<int>, ds: seq<int>, rest: seq<int>, a: int, pa: int)
    requires IsPrime(p) && |xs| == |ys| == |ds| && 0 < a < p
    requires forall i :: 0 <= i < |xs| ==> 0 < xs[i] < p && xs[i] != a && Cong(p, ys[i], pa + (xs[i] - a) * ds[i])
    ensures Cong(p, WeightedSum(p, xs, ys, rest + [a]),
                    pa * CoefSum(p, xs, rest + [a]) - a * WeightedSum(p, xs, ds, rest))
  {
    if xs != [] {
      var n := |xs| - 1;
      var x, y, d := xs[n], ys[n], ds[n];
      SplitLastPoint(p, xs[..n], ys[..n], ds[..n], rest, a, pa);
      CoefAppend(p, rest, a, a, x);
      DistinctInvertible(p, a, x);
      SplitStep(p, pa, x, a, d, y, Coef(p, rest, x), Inverse(p, a - x),
                WeightedSum(p, xs[..n], ys[..n], rest + [a]), CoefSum(p, xs[..n], rest + [a]), WeightedSum(p, xs[..n], ds[..n], rest));
    }
  }

  lemma {:induction false} SplitStep(p: int, pa: int, x: int, a: int, d: int, y: int, c: int, u: int, wSum: int, cSum: int, dSum: int)
    requires p > 0 && Cong(p, wSum, pa * cSum - a * dSum) && Cong(p, y, pa + (x - a) * d) && Cong(p, (a - x) * u, 1)
    ensures Cong(p, wSum + y * (c * (a * u)), pa * (cSum + c * (a * u)) - a * (dSum + d * c))
  {
    var k := c * (a * u);
    CongMul(p, y, pa + (x - a) * d, k, k);
    CongScale(p, -(a * d * c), (a - x) * u, 1);
    CongAdd(p, pa * k, pa * k, -(a * d * c) * ((a - x) * u), -(a * d * c) * 1);
    SplitArithmetic(pa, x, a, d, c, u);
    CongAdd(p, wSum, pa * cSum - a * dSum, y * k, pa * k + -(a * d * c) * 1);
    assert pa * (cSum + k) - a * (dSum + d * c) == pa * cSum - a * dSum + (pa * k + -(a * d * c) * 1);
  }

  lemma {:induction false} SplitArithmetic(pa: int, x: int, a: int, d: int, c: int, u: int)
    ensures (pa + (x - a) * d) * (c * (a * u)) == pa * (c * (a * u)) + -(a * d * c) * ((a - x) * u)
  {
    var k := c * (a * u);
    assert ((x - a) * d) * k == -(a * d * c) * ((a - x) * u) by {
      var w := a * d * c * u;
      assert ((x - a) * d) * k == (x - a) * w;
      assert (a * d * c) * ((a - x) * u) == (a - x) * w;
    }
    assert (pa + (x - a) * d) * k == pa * k + ((x - a) * d) * k;
  }

  /** Interpolation: values of a polynomial at no fewer points than it has coefficients, weighted
      by the Lagrange coefficients, give its value at zero. */
  lemma {:induction false} Interpolates(p: int, ids: seq<int>, ys: seq<int>, cs: seq<int>)
    requires IsPrime(p) && Points(p, ids) && ids != [] && |ys| == |ids| && |cs| <= |ids|
    requires forall i :: 0 <= i < |ids| ==> Cong(p, ys[i], Eval(cs, ids[i]))
    ensures Cong(p, WeightedSum(p, ids, ys, ids), Eval(cs, 0))
    decreases |ids|
  {
    var n := |ids| - 1;
    var rest, a := ids[..n], ids[n];
    if n == 0 {
      OnePoint(p, a, ys, cs);
      assert ids == [a];
    } else {
      var q := Quotient(cs, a);
      Interpolates(p, rest, Values(q, rest), q);
      InterpolatesNext(p, ids, ys, cs);
    }
  }

  lemma {:induction false} OnePoint(p: int, a: int, ys: seq<int>, cs: seq<int>)
    requires IsPrime(p) && |ys| == 1 && |cs| <= 1 && Cong(p, ys[0], Eval(cs, a))
    ensures Cong(p, WeightedSum(p, [a], ys, [a]), Eval(cs, 0))
  {
    SinglePoint(p, a, ys[0]);
    assert ys == [ys[0]];
    if cs != [] {
      assert cs[1..] == [];
      assert Eval(cs, a) == cs[0] == Eval(cs, 0);
    }
  }

  lemma {:induction false} InterpolatesNext(p: int, ids: seq<int>, ys: seq<int>, cs: seq<int>)
    requires IsPrime(p) && Points(p, ids) && ids != [] && |ys| == |ids|
    requires forall i :: 0 <= i < |ids| ==> Cong(p, ys[i], Eval(cs, ids[i]))
    requires var rest, q := ids[..|ids| - 1], Quotient(cs, ids[|ids| - 1]);
             Cong(p, WeightedSum(p, rest, Values(q, rest), rest), Eval(q, 0))
    ensures Cong(p, WeightedSum(p, ids, ys, ids), Eval(cs, 0))
  {
    var n := |ids| - 1;
    var rest, a := ids[..n], ids[n];
    var q := Quotient(cs, a);
    assert ids == rest + [a];
    SplitQuotient(p, rest, ys[..n], cs, a);
    CoefficientsSumToOne(p, ids);
    QuotientLaw(cs, a, 0);
    LastPointArithmetic(p, WeightedSum(p, rest, ys[..n], ids), CoefSum(p, rest, ids), WeightedSum(p, rest, Values(q, rest), rest),
                        Coef(p, ids, a), a, Eval(cs, a), ys[n], Eval(q, 0));
  }

  function Values(cs: seq<int>, xs: seq<int>): (ys: seq<int>)
    ensures |ys| == |xs| && forall i :: 0 <= i < |xs| ==> ys[i] == Eval(cs, xs[i])
  {
    seq(|xs|, i requires 0 <= i < |xs| => Eval(cs, xs[i]))
  }

  lemma {:induction false} SplitQuotient(p: int, rest: seq<int>, ys: seq<int>, cs: seq<int>, a: int)
    requires IsPrime(p) && |ys| == |rest| && 0 < a < p
    requires forall i :: 0 <= i < |rest| ==> 0 < rest[i] < p && rest[i] != a && Cong(p, ys[i], Eval(cs, rest[i]))
    ensures Cong(p, WeightedSum(p, rest, ys, rest + [a]),
                    Eval(cs, a) * CoefSum(p, rest, rest + [a]) - a * WeightedSum(p, rest, Values(Quotient(cs, a), rest), rest))
  {
    QuotientValues(cs, a, rest);
    SplitLastPoint(p, rest, ys, Values(Quotient(cs, a), rest), rest, a, Eval(cs, a));
  }

  lemma {:induction false} QuotientValues(cs: seq<int>, a: int, xs: seq<int>)
    ensures forall i :: 0 <= i < |xs| ==> Eval(cs, xs[i]) == Eval(cs, a) + (xs[i] - a) * Values(Quotient(cs, a), xs)[i]
  {
    forall i | 0 <= i < |xs|
      ensures Eval(cs, xs[i]) == Eval(cs, a) + (xs[i] - a) * Values(Quotient(cs, a), xs)[i]
    {
      QuotientLaw(cs, a, xs[i]);
    }
  }

  lemma {:induction false} LastPointArithmetic(p: int, wSum: int, cSum: int, dSum: int, k: int, a: int, pa: int, y: int, q0: int)
    requires p > 0
    requires Cong(p, wSum, pa * cSum - a * dSum) && Cong(p, y, pa) && Cong(p, cSum + k, 1) && Cong(p, dSum, q0)
    ensures Cong(p, wSum + y * k, pa + (0 - a) * q0)
  {
    CongMul(p, y, pa, k, k);
    CongAdd(p, wSum, pa * cSum - a * dSum, y * k, pa * k);
    assert pa * cSum - a * dSum + pa * k == pa * (cSum + k) + -a * dSum;
    CongScale(p, pa, cSum + k, 1);
    CongScale(p, -a, dSum, q0);
    CongAdd(p, pa * (cSum + k), pa * 1, -a * dSum, -a * q0);
  }
}
