/** Dealing key shares (examples/bls/gen.go) and recovering a signature (examples/bls/reconstruct.go).

    Curve points are represented by their discrete logarithms: a public key by its secret scalar, a
    signature by the scalar times the hashed message. `p` is the order of the group. */
module ThresholdKeys {
  import opened Options
  import opened Collections
  import opened Modular
  import opened PrimeField
  import opened Interpolation

  function Sign(p: int, secret: int, hash: int): int
    requires p > 0
  {
    (secret * hash) % p
  }

  predicate Verify(p: int, publicKey: int, hash: int, sig: int)
    requires p > 0
  {
    sig == (publicKey * hash) % p
  }

  /** A signature verifies exactly under the key that made it, for the message that was signed. */
  lemma {:induction false} VerifiesIff(p: int, publicKey: int, secret: int, hash: int, hash': int)
    requires IsPrime(p)
    ensures hash % p != 0 ==> (Verify(p, publicKey, hash, Sign(p, secret, hash)) <==> Cong(p, publicKey, secret))
    ensures publicKey % p != 0 ==> (Verify(p, publicKey, hash', Sign(p, publicKey, hash)) <==> Cong(p, hash', hash))
  {
    CancelsIff(p, hash, publicKey, secret);
    CancelsIff(p, publicKey, hash', hash);
  }

  lemma {:induction false} CancelsIff(p: int, c: int, a: int, b: int)
    requires IsPrime(p)
    ensures c % p != 0 ==> (Cong(p, a * c, b * c) <==> Cong(p, a, b))
    ensures c % p != 0 ==> (Cong(p, c * a, c * b) <==> Cong(p, a, b))
  {
    if Cong(p, a, b) {
      CongScale(p, c, a, b);
    }
    if c % p != 0 && Cong(p, c * a, c * b) {
      CongCancel(p, c, a, b);
    }
    Commutes(a, c);
    Commutes(b, c);
  }

  lemma {:induction false} Commutes(a: int, c: int)
    ensures a * c == c * a
  {
  }

  /** Splits the secret `sk` into shares for the ids 1..count. The coefficients above the constant
      one are fresh keys, taken here from `random`. */
  method GenShares(p: int, sk: int, threshold: nat, count: nat, random: seq<int>)
    returns (shares: map<int, int>, sharesPK: map<int, int>)
    requires p > 0 && threshold >= 1 && |random| == threshold - 1
    ensures forall i :: i in shares <==> 1 <= i <= count
    ensures forall i :: i in shares ==> shares[i] == Eval([sk] + random, i) % p
    ensures sharesPK == shares
  {
    var msk := new int[threshold];
    msk[0] := sk;
    for i := 1 to threshold
      invariant msk[..i] == [sk] + random[..i - 1]
    {
      msk[i] := random[i - 1];
    }
    assert msk[..] == msk[..threshold] == [sk] + random;
    shares, sharesPK := map[], map[];
    for i := 1 to count + 1
      invariant msk[..] == [sk] + random
      invariant forall j :: j in shares <==> 1 <= j < i
      invariant forall j :: j in shares ==> shares[j] == Eval([sk] + random, j) % p
      invariant sharesPK == shares
    {
      var share := Eval(msk[..], i) % p;
      shares := shares[i := share];
      sharesPK := sharesPK[i := share];
    }
  }

  /** Recovery of a group element from values at the given ids. It refuses an empty list, an id
      that is zero in the field and a repeated id. */
  function Recover(p: int, ids: seq<int>, sigs: seq<int>): Option<int>
    requires IsPrime(p) && |ids| == |sigs|
  {
    if ids != [] && Points(p, ids) then Some(WeightedSum(p, ids, sigs, ids) % p) else None
  }

  /** Exactly what recovery refuses: no parts, an id that is zero or too large for the field, or one given
      twice. */
  lemma {:induction false} RefusesIff(p: int, ids: seq<int>, sigs: seq<int>)
    requires IsPrime(p) && |ids| == |sigs|
    ensures Recover(p, ids, sigs) == None <==>
      || |ids| == 0 || (exists i :: 0 <= i < |ids| && !(1 <= ids[i] <= p - 1))
      || (exists i, j :: 0 <= i < j < |ids| && ids[i] == ids[j])
  {
  }

  predicate Enumerates(order: seq<int>, keys: set<int>) {
    && (forall i :: 0 <= i < |order| ==> order[i] in keys)
    && (forall k :: k in keys ==> k in order)
    && (forall i, j :: 0 <= i < j < |order| ==> order[i] != order[j])
  }

  function ValuesAt(sigs: map<int, int>, order: seq<int>): (ys: seq<int>)
    requires forall i :: 0 <= i < |order| ==> order[i] in sigs
    ensures |ys| == |order| && forall i :: 0 <= i < |order| ==> ys[i] == sigs[order[i]]
  {
    seq(|order|, i requires 0 <= i < |order| => sigs[order[i]])
  }

  /** Reconstructs a signature from the partial ones, visiting the map in an arbitrary order.
      `None` among the inputs is a signature that does not deserialize. */
  method ReconstructSigs(p: int, signatures: map<int, Option<int>>) returns (sig: Option<int>)
    requires IsPrime(p)
    ensures (exists i :: i in signatures && signatures[i].None?) ==> sig == None
    ensures forall points: map<int, int>, order: seq<int> ::
              points.Keys == signatures.Keys && (forall i :: i in points ==> signatures[i] == Some(points[i]))
              && Enumerates(order, points.Keys)
              ==> sig == Recover(p, order, ValuesAt(points, order))
  {
    var idVec: seq<int>, sigVec: seq<int> := [], [];
    var left := signatures.Keys;
    while left != {}
      invariant left <= signatures.Keys
      invariant |idVec| == |sigVec| && Enumerates(idVec, signatures.Keys - left)
      invariant forall i :: 0 <= i < |idVec| ==> idVec[i] in signatures && signatures[idVec[i]] == Some(sigVec[i])
    {
      var index := Pick(left);
      if signatures[index].None? { return None; }
      assert forall i :: 0 <= i < |idVec| ==> idVec[i] != index;
      idVec := idVec + [index];
      sigVec := sigVec + [signatures[index].value];
      left := left - {index};
    }
    assert signatures.Keys - left == signatures.Keys;
    assert forall i :: i in signatures ==> i in idVec;
    sig := Recover(p, idVec, sigVec);
    forall points: map<int, int>, order: seq<int> |
      points.Keys == signatures.Keys && (forall i :: i in points ==> signatures[i] == Some(points[i]))
      && Enumerates(order, points.Keys)
      ensures sig == Recover(p, order, ValuesAt(points, order))
    {
      assert signatures.Keys - left == points.Keys;
      assert sigVec == ValuesAt(points, idVec);
      RecoveryIgnoresOrder(p, points, idVec, order);
    }
  }

  // --- the order of the map does not matter -----------------------------------------------------

  function Without(s: seq<int>, k: nat): seq<int>
    requires k < |s|
  {
    s[..k] + s[k + 1..]
  }

  lemma {:induction false} CoefWithout(p: int, ids: seq<int>, k: nat, x: int)
    requires IsPrime(p) && k < |ids|
    ensures Coef(p, ids, x) == Coef(p, Without(ids, k), x) * Factor(p, ids[k], x)
    decreases |ids|
  {
    var n := |ids| - 1;
    if k == n {
      assert Without(ids, k) == ids[..n];
    } else {
      CoefWithout(p, ids[..n], k, x);
      assert Without(ids, k)[..n - 1] == Without(ids[..n], k);
      assert Without(ids, k)[n - 1] == ids[n];
      var c, f, g := Coef(p, Without(ids[..n], k), x), Factor(p, ids[k], x), Factor(p, ids[n], x);
      assert Coef(p, Without(ids, k), x) == c * g;
      SwapFactors(c, f, g);
    }
  }

  lemma {:induction false} SwapFactors(c: int, f: int, g: int)
    ensures c * f * g == c * g * f
  {
  }

  lemma {:induction false} SumWithout(p: int, xs: seq<int>, ys: seq<int>, k: nat, ids: seq<int>)
    requires IsPrime(p) && |xs| == |ys| && k < |xs|
    ensures WeightedSum(p, xs, ys, ids) == WeightedSum(p, Without(xs, k), Without(ys, k), ids) + ys[k] * Coef(p, ids, xs[k])
    decreases |xs|
  {
    var n := |xs| - 1;
    if k == n {
      assert Without(xs, k) == xs[..n] && Without(ys, k) == ys[..n];
    } else {
      SumWithout(p, xs[..n], ys[..n], k, ids);
      assert Without(xs, k)[..n - 1] == Without(xs[..n], k) && Without(xs, k)[n - 1] == xs[n];
      assert Without(ys, k)[..n - 1] == Without(ys[..n], k) && Without(ys, k)[n - 1] == ys[n];
    }
  }

  predicate SamePoints(a: seq<int>, b: seq<int>) {
    && (forall i, j :: 0 <= i < j < |a| ==> a[i] != a[j])
    && (forall i, j :: 0 <= i < j < |b| ==> b[i] != b[j])
    && (forall i :: 0 <= i < |a| ==> a[i] in b)
    && (forall i :: 0 <= i < |b| ==> b[i] in a)
  }

  lemma {:induction false} DropLast(a: seq<int>, b: seq<int>) returns (k: nat)
    requires SamePoints(a, b) && a != []
    ensures k < |b| && b[k] == a[|a| - 1] && SamePoints(a[..|a| - 1], Without(b, k))
  {
    var last := a[|a| - 1];
    assert last in b;
    k :| k < |b| && b[k] == last;
    var b' := Without(b, k);
    forall i | 0 <= i < |a| - 1 ensures a[i] in b' {
      StaysWithout(b, k, a[i]);
    }
    forall j | 0 <= j < |b'| ensures b'[j] in a[..|a| - 1] {
      assert b'[j] == b[if j < k then j else j + 1];
      assert b[if j < k then j else j + 1] in a;
    }
  }

  lemma {:induction false} StaysWithout(b: seq<int>, k: nat, x: int)
    requires k < |b| && x in b && x != b[k]
    ensures x in Without(b, k)
  {
    var j :| 0 <= j < |b| && b[j] == x;
    assert Without(b, k)[if j < k then j else j - 1] == x;
  }

  lemma {:induction false} SameEmpty(a: seq<int>, b: seq<int>)
    requires SamePoints(a, b)
    ensures a == [] <==> b == []
  {
    assert a != [] ==> a[0] in b;
    assert b != [] ==> b[0] in a;
  }

  lemma {:induction false} CoefIgnoresOrder(p: int, a: seq<int>, b: seq<int>, x: int)
    requires IsPrime(p) && SamePoints(a, b)
    ensures Coef(p, a, x) == Coef(p, b, x)
    decreases |a|
  {
    if a == [] {
      SameEmpty(a, b);
    } else {
      var k := DropLast(a, b);
      CoefIgnoresOrder(p, a[..|a| - 1], Without(b, k), x);
      CoefWithout(p, b, k, x);
    }
  }

  lemma {:induction false} SumIgnoresIdOrder(p: int, xs: seq<int>, ys: seq<int>, ids: seq<int>, ids': seq<int>)
    requires IsPrime(p) && |xs| == |ys| && SamePoints(ids, ids')
    ensures WeightedSum(p, xs, ys, ids) == WeightedSum(p, xs, ys, ids')
    decreases |xs|
  {
    if xs != [] {
      var n := |xs| - 1;
      SumIgnoresIdOrder(p, xs[..n], ys[..n], ids, ids');
      CoefIgnoresOrder(p, ids, ids', xs[n]);
    }
  }

  lemma {:induction false} ValuesWithout(sigs: map<int, int>, order: seq<int>, k: nat)
    requires k < |order| && forall i :: 0 <= i < |order| ==> order[i] in sigs
    ensures forall i :: 0 <= i < |order| - 1 ==> Without(order, k)[i] in sigs
    ensures Without(ValuesAt(sigs, order), k) == ValuesAt(sigs, Without(order, k))
  {
    var rest := Without(order, k);
    assert forall i :: 0 <= i < |rest| ==> rest[i] == order[if i < k then i else i + 1];
  }

  lemma {:induction false} SumIgnoresOrder(p: int, sigs: map<int, int>, a: seq<int>, b: seq<int>, ids: seq<int>)
    requires IsPrime(p) && SamePoints(a, b)
    requires forall i :: 0 <= i < |a| ==> a[i] in sigs
    requires forall i :: 0 <= i < |b| ==> b[i] in sigs
    ensures WeightedSum(p, a, ValuesAt(sigs, a), ids) == WeightedSum(p, b, ValuesAt(sigs, b), ids)
    decreases |a|
  {
    if a == [] {
      SameEmpty(a, b);
    } else {
      var n := |a| - 1;
      var k := DropLast(a, b);
      ValuesWithout(sigs, a, n);
      ValuesWithout(sigs, b, k);
      SumIgnoresOrder(p, sigs, Without(a, n), Without(b, k), ids) by {
        assert Without(a, n) == a[..n];
      }
      SumWithout(p, a, ValuesAt(sigs, a), n, ids);
      SumWithout(p, b, ValuesAt(sigs, b), k, ids);
    }
  }

  /** Any two enumerations of the same partial signatures recover the same result, valid or not. */
  lemma {:induction false} RecoveryIgnoresOrder(p: int, sigs: map<int, int>, a: seq<int>, b: seq<int>)
    requires IsPrime(p) && Enumerates(a, sigs.Keys) && Enumerates(b, sigs.Keys)
    ensures Recover(p, a, ValuesAt(sigs, a)) == Recover(p, b, ValuesAt(sigs, b))
  {
    forall i | 0 <= i < |a| ensures a[i] in b {
      var k := a[i];
      assert k in sigs.Keys;
    }
    forall i | 0 <= i < |b| ensures b[i] in a {
      var k := b[i];
      assert k in sigs.Keys;
    }
    SumIgnoresOrder(p, sigs, a, b, a);
    SumIgnoresIdOrder(p, b, ValuesAt(sigs, b), a, b);
    SameEmpty(a, b);
    assert Points(p, a) <==> Points(p, b);
  }

  // --- recovering from enough shares -----------------------------------------------------------

  /** The partial signatures of the dealt shares on one message, from at least as many signers as
      the polynomial has coefficients, recover exactly the master key's signature, in any order. */
  lemma {:induction false} RecoversMasterSignature(p: int, msk: seq<int>, hash: int, sigs: map<int, int>, order: seq<int>)
    requires IsPrime(p) && msk != [] && Enumerates(order, sigs.Keys) && |msk| <= |sigs.Keys|
    requires forall i :: i in sigs ==> 0 < i < p && sigs[i] == Sign(p, Eval(msk, i) % p, hash)
    ensures Recover(p, order, ValuesAt(sigs, order)) == Some(Sign(p, msk[0], hash))
  {
    EnumerationLength(order, sigs.Keys);
    var ys := ValuesAt(sigs, order);
    var scaled := Scale(hash, msk);
    forall i | 0 <= i < |order|
      ensures Cong(p, ys[i], Eval(scaled, order[i]))
    {
      EvalScale(hash, msk, order[i]);
      PartialIsScaled(p, Eval(msk, order[i]), hash);
    }
    Interpolates(p, order, ys, scaled);
    EvalAtZero(scaled);
    assert scaled[0] == hash * msk[0];
  }

  lemma {:induction false} PartialIsScaled(p: int, share: int, hash: int)
    requires p > 0
    ensures Cong(p, Sign(p, share % p, hash), hash * share)
  {
    CongReduce(p, share);
    CongScale(p, hash, share % p, share);
    CongReduce(p, hash * (share % p));
    assert share % p * hash == hash * (share % p);
  }

  lemma {:induction false} EvalAtZero(cs: seq<int>)
    requires cs != []
    ensures Eval(cs, 0) == cs[0]
  {
  }

  lemma {:induction false} EnumerationLength(order: seq<int>, keys: set<int>)
    requires Enumerates(order, keys)
    ensures |order| == |keys|
    decreases |order|
  {
    if order == [] {
      assert keys == {} by {
        forall k | k in keys ensures k in order {}
      }
    } else {
      var n := |order| - 1;
      var last := order[n];
      forall k | k in keys - {last} ensures k in order[..n] {
        var i :| 0 <= i < |order| && order[i] == k;
      }
      EnumerationLength(order[..n], keys - {last});
    }
  }

  function Scale(c: int, cs: seq<int>): (r: seq<int>)
    ensures |r| == |cs|
  {
    if cs == [] then [] else [c * cs[0]] + Scale(c, cs[1..])
  }

  lemma {:induction false} EvalScale(c: int, cs: seq<int>, x: int)
    ensures Eval(Scale(c, cs), x) == c * Eval(cs, x)
  {
    if cs != [] {
      EvalScale(c, cs[1..], x);
      assert Scale(c, cs)[1..] == Scale(c, cs[1..]);
      ScaleArithmetic(c, cs[0], x, Eval(cs[1..], x));
    }
  }

  lemma {:induction false} ScaleArithmetic(c: int, c0: int, x: int, e: int)
    ensures c * c0 + x * (c * e) == c * (c0 + x * e)
  {
    assert x * (c * e) == c * (x * e);
  }

  // --- fewer shares determine nothing -----------------------------------------------------------

  function AddPoly(a: seq<int>, b: seq<int>): (r: seq<int>)
    ensures |r| == if |a| >= |b| then |a| else |b|
  {
    if a == [] then b else if b == [] then a else [a[0] + b[0]] + AddPoly(a[1..], b[1..])
  }

  lemma {:induction false} EvalAddPoly(a: seq<int>, b: seq<int>, x: int)
    ensures Eval(AddPoly(a, b), x) == Eval(a, x) + Eval(b, x)
  {
    if a != [] && b != [] {
      EvalAddPoly(a[1..], b[1..], x);
      assert AddPoly(a, b)[1..] == AddPoly(a[1..], b[1..]);
      assert x * (Eval(a[1..], x) + Eval(b[1..], x)) == x * Eval(a[1..], x) + x * Eval(b[1..], x);
    }
  }

  /** The product of `x - a` over the points. */
  function Vanishing(ids: seq<int>): (r: seq<int>)
    ensures |r| == |ids| + 1
  {
    if ids == [] then [1] else
      var v := Vanishing(ids[1..]);
      AddPoly([0] + v, Scale(-ids[0], v))
  }

  lemma {:induction false} EvalVanishing(ids: seq<int>, x: int)
    ensures ids != [] ==> Eval(Vanishing(ids), x) == (x - ids[0]) * Eval(Vanishing(ids[1..]), x)
    ensures x in ids ==> Eval(Vanishing(ids), x) == 0
  {
    if ids != [] {
      var v := Vanishing(ids[1..]);
      EvalVanishing(ids[1..], x);
      EvalAddPoly([0] + v, Scale(-ids[0], v), x);
      EvalScale(-ids[0], v, x);
      assert ([0] + v)[1..] == v;
      assert Eval([0] + v, x) == x * Eval(v, x);
      assert (x - ids[0]) * Eval(v, x) == x * Eval(v, x) + -ids[0] * Eval(v, x);
    }
  }

  lemma {:induction false} VanishingElsewhere(p: int, ids: seq<int>, at: int)
    requires IsPrime(p) && Points(p, ids) && 0 <= at < p && at !in ids
    ensures Eval(Vanishing(ids), at) % p != 0
  {
    if ids == [] {
      assert Eval([1], at) == 1;
    } else {
      var e := Eval(Vanishing(ids[1..]), at);
      VanishingElsewhere(p, ids[1..], at);
      EvalVanishing(ids, at);
      if at > ids[0] {
        ModUnique(p, at - ids[0], 0, at - ids[0]);
      } else {
        ModUnique(p, at - ids[0], -1, at - ids[0] + p);
      }
      if ((at - ids[0]) * e) % p == 0 {
        CongCancel(p, at - ids[0], e, 0);
      }
    }
  }

  /** Shares of fewer ids than the polynomial has coefficients fit every value at every other point. */
  lemma {:induction false} FewerSharesFitEveryValue(p: int, msk: seq<int>, ids: seq<int>, at: int, other: int) returns (msk': seq<int>)
    requires IsPrime(p) && Points(p, ids) && |ids| < |msk| && 0 <= at < p && at !in ids
    ensures |msk'| == |msk| && Cong(p, Eval(msk', at), other)
    ensures forall i :: 0 <= i < |ids| ==> Eval(msk', ids[i]) == Eval(msk, ids[i])
  {
    var v := Vanishing(ids);
    var z := Eval(v, at);
    VanishingElsewhere(p, ids, at);
    InverseLaw(p, z);
    var c := (other - Eval(msk, at)) * Inverse(p, z);
    msk' := AddPoly(msk, Scale(c, v));
    forall i | 0 <= i < |ids|
      ensures Eval(msk', ids[i]) == Eval(msk, ids[i])
    {
      EvalAddPoly(msk, Scale(c, v), ids[i]);
      EvalScale(c, v, ids[i]);
      EvalVanishing(ids, ids[i]);
    }
    EvalAddPoly(msk, Scale(c, v), at);
    EvalScale(c, v, at);
    ShiftSecret(p, Eval(msk, at), other, z, Inverse(p, z));
  }

  /** The threshold is tight: shares of fewer ids than the polynomial has coefficients are shares
      of every other secret as well. */
  lemma {:induction false} FewerSharesFitEverySecret(p: int, msk: seq<int>, ids: seq<int>, other: int) returns (msk': seq<int>)
    requires IsPrime(p) && Points(p, ids) && |ids| < |msk|
    ensures |msk'| == |msk| && Cong(p, msk'[0], other)
    ensures forall i :: 0 <= i < |ids| ==> Eval(msk', ids[i]) == Eval(msk, ids[i])
  {
    msk' := FewerSharesFitEveryValue(p, msk, ids, 0, other);
    EvalAtZero(msk');
  }

  lemma {:induction false} ShiftSecret(p: int, secret: int, other: int, z: int, inv: int)
    requires p > 0 && Cong(p, z * inv, 1)
    ensures Cong(p, secret + (other - secret) * inv * z, other)
  {
    CongScale(p, other - secret, z * inv, 1);
    assert (other - secret) * inv * z == (other - secret) * (z * inv);
    CongAdd(p, secret, secret, (other - secret) * inv * z, other - secret);
  }

  // --- enough shares determine all others -----------------------------------------------------------

  /** The polynomial read from `k` on: its value at `x` is that of `cs` at `x + k`. */
  function Shift(cs: seq<int>, k: int): (r: seq<int>)
    ensures |r| == |cs|
  {
    if cs == [] then [] else
      var r := Shift(cs[1..], k);
      AddPoly([cs[0]] + r, Scale(k, r))
  }

  lemma {:induction false} EvalShift(cs: seq<int>, k: int, x: int)
    ensures Eval(Shift(cs, k), x) == Eval(cs, x + k)
  {
    if cs != [] {
      var r := Shift(cs[1..], k);
      EvalShift(cs[1..], k, x);
      EvalAddPoly([cs[0]] + r, Scale(k, r), x);
      EvalScale(k, r, x);
      assert ([cs[0]] + r)[1..] == r;
      Distribute(x, -k, Eval(r, x));
    }
  }

  /** Congruent points have congruent values. */
  lemma {:induction false} EvalCong(p: int, cs: seq<int>, x: int, x': int)
    requires p > 0 && Cong(p, x, x')
    ensures Cong(p, Eval(cs, x), Eval(cs, x'))
  {
    if cs != [] {
      EvalCong(p, cs[1..], x, x');
      CongMul(p, x, x', Eval(cs[1..], x), Eval(cs[1..], x'));
      CongAdd(p, cs[0], cs[0], x * Eval(cs[1..], x), x' * Eval(cs[1..], x'));
    }
  }

  /** The ids as seen from `k`. */
  function From(p: int, ids: seq<int>, k: int): (at: seq<int>)
    requires p > 0
    ensures |at| == |ids| && forall i :: 0 <= i < |ids| ==> at[i] == (ids[i] - k) % p
  {
    seq(|ids|, i requires 0 <= i < |ids| => (ids[i] - k) % p)
  }

  lemma {:induction false} FromArePoints(p: int, ids: seq<int>, k: int)
    requires IsPrime(p) && Points(p, ids) && 0 < k < p && k !in ids
    ensures Points(p, From(p, ids, k))
  {
    forall i | 0 <= i < |ids| ensures 0 < From(p, ids, k)[i] < p {
      DistinctNonzero(p, ids[i], k);
    }
    forall i, j | 0 <= i < j < |ids| ensures From(p, ids, k)[i] != From(p, ids, k)[j] {
      DistinctShifts(p, ids[i], ids[j], k);
    }
  }

  lemma {:induction false} DistinctShifts(p: int, a: int, b: int, k: int)
    requires p > 0 && 0 < a < p && 0 < b < p && a != b
    ensures (a - k) % p != (b - k) % p
  {
    DistinctNonzero(p, a, b);
    if Cong(p, a - k, b - k) {
      CongAdd(p, a - k, b - k, k - b, k - b);
    }
  }

  /** As many partial signatures on one message as the polynomial has coefficients give anyone the valid
      partial signature of every other signer: Lagrange interpolation at its id. */
  lemma {:induction false} OthersDetermine(p: int, msk: seq<int>, hash: int, ids: seq<int>, sigs: seq<int>, k: int)
    requires IsPrime(p) && Points(p, ids) && 0 < |msk| <= |ids| == |sigs| && 0 < k < p && k !in ids
    requires forall i :: 0 <= i < |ids| ==> sigs[i] == Sign(p, Eval(msk, ids[i]) % p, hash)
    ensures WeightedSum(p, From(p, ids, k), sigs, From(p, ids, k)) % p == Sign(p, Eval(msk, k) % p, hash)
  {
    var at, scaled := From(p, ids, k), Scale(hash, Shift(msk, k));
    FromArePoints(p, ids, k);
    forall i | 0 <= i < |ids| ensures Cong(p, sigs[i], Eval(scaled, at[i])) {
      ShiftedPart(p, msk, hash, ids[i], k);
    }
    Interpolates(p, at, sigs, scaled);
    EvalScale(hash, Shift(msk, k), 0);
    EvalShift(msk, k, 0);
    PartialIsScaled(p, Eval(msk, k), hash);
    SmallCong(p, WeightedSum(p, at, sigs, at), hash * Eval(msk, k), Sign(p, Eval(msk, k) % p, hash));
  }

  lemma {:induction false} ShiftedPart(p: int, msk: seq<int>, hash: int, id: int, k: int)
    requires p > 0
    ensures Cong(p, Sign(p, Eval(msk, id) % p, hash), Eval(Scale(hash, Shift(msk, k)), (id - k) % p))
  {
    var x := (id - k) % p;
    PartialIsScaled(p, Eval(msk, id), hash);
    CongReduce(p, id - k);
    CongAdd(p, x, id - k, k, k);
    EvalCong(p, msk, x + k, id);
    EvalShift(msk, k, x);
    EvalScale(hash, Shift(msk, k), x);
    CongScale(p, hash, Eval(msk, x + k), Eval(msk, id));
  }

  lemma {:induction false} SmallCong(p: int, a: int, b: int, c: int)
    requires p > 0 && Cong(p, a, b) && Cong(p, c, b) && 0 <= c < p
    ensures a % p == c
  {
    ModUnique(p, c, 0, c);
  }

  // --- wrong parts -----------------------------------------------------------------------------------

  function Differences(ys: seq<int>, zs: seq<int>): (ds: seq<int>)
    requires |ys| == |zs|
    ensures |ds| == |ys|
  {
    seq(|ys|, i requires 0 <= i < |ys| => ys[i] - zs[i])
  }

  lemma {:induction false} SumLinear(p: int, xs: seq<int>, ys: seq<int>, zs: seq<int>, ids: seq<int>)
    requires IsPrime(p) && |xs| == |ys| == |zs|
    ensures WeightedSum(p, xs, ys, ids) == WeightedSum(p, xs, zs, ids) + WeightedSum(p, xs, Differences(ys, zs), ids)
    decreases |xs|
  {
    if xs != [] {
      var n := |xs| - 1;
      SumLinear(p, xs[..n], ys[..n], zs[..n], ids);
      assert Differences(ys, zs)[..n] == Differences(ys[..n], zs[..n]);
      Distribute(ys[n], zs[n], Coef(p, ids, xs[n]));
    }
  }

  lemma {:induction false} Distribute(y: int, z: int, c: int)
    ensures y * c == z * c + (y - z) * c
  {
  }

  /** What the shares dealt from `msk` give for one message, at the ids in order. */
  function RightValues(p: int, msk: seq<int>, hash: int, order: seq<int>): (ys: seq<int>)
    requires p > 0
    ensures |ys| == |order|
  {
    seq(|order|, i requires 0 <= i < |order| => Sign(p, Eval(msk, order[i]) % p, hash))
  }

  /** How far the given parts are off in all: each error weighted by its Lagrange coefficient. */
  function TotalError(p: int, msk: seq<int>, hash: int, sigs: map<int, int>, order: seq<int>): int
    requires IsPrime(p) && forall i :: 0 <= i < |order| ==> order[i] in sigs
  {
    WeightedSum(p, order, Differences(ValuesAt(sigs, order), RightValues(p, msk, hash, order)), order)
  }

  lemma {:induction false} RightValuesRecover(p: int, msk: seq<int>, hash: int, keys: set<int>, order: seq<int>)
    requires IsPrime(p) && msk != [] && Enumerates(order, keys) && |msk| <= |keys| && forall i :: i in keys ==> 0 < i < p
    ensures Recover(p, order, RightValues(p, msk, hash, order)) == Some(Sign(p, msk[0], hash))
  {
    var right := map i | i in keys :: Sign(p, Eval(msk, i) % p, hash);
    assert right.Keys == keys;
    RecoversMasterSignature(p, msk, hash, right, order);
    assert ValuesAt(right, order) == RightValues(p, msk, hash, order);
  }

  /** Exactly when recovery succeeds, however many parts are wrong: the master signature comes out if
      and only if the weighted errors cancel in the field. */
  lemma {:induction false} RecoversIffErrorsCancel(p: int, msk: seq<int>, hash: int, sigs: map<int, int>, order: seq<int>)
    requires IsPrime(p) && msk != [] && Enumerates(order, sigs.Keys) && |msk| <= |sigs.Keys| && forall i :: i in sigs ==> 0 < i < p
    ensures Recover(p, order, ValuesAt(sigs, order)).Some?
    ensures Recover(p, order, ValuesAt(sigs, order)) == Some(Sign(p, msk[0], hash))
            <==> Cong(p, TotalError(p, msk, hash, sigs, order), 0)
  {
    RightValuesRecover(p, msk, hash, sigs.Keys, order);
    var ys, zs := ValuesAt(sigs, order), RightValues(p, msk, hash, order);
    SumLinear(p, order, ys, zs, order);
    ShiftIsZero(p, WeightedSum(p, order, zs, order), TotalError(p, msk, hash, sigs, order));
  }

  lemma {:induction false} ShiftIsZero(p: int, a: int, e: int)
    requires p > 0
    ensures (a + e) % p == a % p <==> Cong(p, e, 0)
  {
    if Cong(p, a + e, a) {
      CongAdd(p, a + e, a, -a, -a);
    }
    if Cong(p, e, 0) {
      CongAdd(p, a, a, e, 0);
    }
  }

  lemma {:induction false} ProductNonzero(p: int, a: int, b: int)
    requires IsPrime(p) && a % p != 0 && b % p != 0
    ensures (a * b) % p != 0
  {
    if (a * b) % p == 0 {
      CongCancel(p, a, b, 0);
    }
  }

  lemma {:induction false} FactorNonzero(p: int, u: int, x: int)
    requires IsPrime(p) && 0 < u < p && 0 < x < p
    ensures Factor(p, u, x) % p != 0
  {
    SmallNonzero(p, 1);
    if u != x {
      DistinctNonzero(p, u, x);
      InverseNonzero(p, u - x);
      SmallNonzero(p, u);
      ProductNonzero(p, u, Inverse(p, u - x));
    }
  }

  lemma {:induction false} SmallNonzero(p: int, u: int)
    requires 0 < u < p
    ensures u % p == u
  {
    ModUnique(p, u, 0, u);
  }

  lemma {:induction false} InverseNonzero(p: int, a: int)
    requires IsPrime(p) && a % p != 0
    ensures Inverse(p, a) % p != 0
  {
    InverseLaw(p, a);
    SmallNonzero(p, 1);
    ZeroFactor(p, a, Inverse(p, a));
  }

  lemma {:induction false} ZeroFactor(p: int, a: int, i: int)
    requires p > 0 && (a * i) % p != 0
    ensures i % p != 0
  {
    if i % p == 0 {
      CongScale(p, a, i, 0);
    }
  }

  lemma {:induction false} CoefNonzero(p: int, ids: seq<int>, x: int)
    requires IsPrime(p) && 0 < x < p && forall i :: 0 <= i < |ids| ==> 0 < ids[i] < p
    ensures Coef(p, ids, x) % p != 0
  {
    if ids != [] {
      var n := |ids| - 1;
      CoefNonzero(p, ids[..n], x);
      FactorNonzero(p, ids[n], x);
      ProductNonzero(p, Coef(p, ids[..n], x), Factor(p, ids[n], x));
    }
  }

  /** Two sums that differ in one value are the same element exactly when the two values are. */
  lemma {:induction false} OneValueDecides(p: int, rest: int, y: int, z: int, c: int)
    requires IsPrime(p) && c % p != 0
    ensures Cong(p, rest + y * c, rest + z * c) <==> Cong(p, y, z)
  {
    if Cong(p, y, z) {
      CongMul(p, y, z, c, c);
      CongAdd(p, rest, rest, y * c, z * c);
    }
    if Cong(p, rest + y * c, rest + z * c) {
      CongAdd(p, rest + y * c, rest + z * c, -rest, -rest);
      assert y * c == c * y && z * c == c * z;
      CongCancel(p, c, y, z);
    }
  }

  /** Recovery detects no error and repairs none: when all parts but one are right, the master
      signature comes out exactly when that one is right too. */
  lemma {:induction false} OneWrongPartSpoils(p: int, msk: seq<int>, hash: int, sigs: map<int, int>, order: seq<int>, k: int)
    requires IsPrime(p) && msk != [] && Enumerates(order, sigs.Keys) && |msk| <= |sigs.Keys| && k in sigs
    requires forall i :: i in sigs ==> 0 < i < p && (i != k ==> sigs[i] == Sign(p, Eval(msk, i) % p, hash))
    ensures Recover(p, order, ValuesAt(sigs, order)) == Some(Sign(p, msk[0], hash))
            <==> Cong(p, sigs[k], Sign(p, Eval(msk, k) % p, hash))
  {
    var right := Sign(p, Eval(msk, k) % p, hash);
    var good := sigs[k := right];
    assert good.Keys == sigs.Keys;
    RecoversMasterSignature(p, msk, hash, good, order);
    var at := IndexOf(order, k);
    var ys, zs := ValuesAt(sigs, order), ValuesAt(good, order);
    forall i | 0 <= i < |order| && i != at ensures ys[i] == zs[i] && order[i] != k {}
    SumsCompare(p, order, ys, zs, at);
  }

  lemma {:induction false} SumsCompare(p: int, order: seq<int>, ys: seq<int>, zs: seq<int>, at: nat)
    requires IsPrime(p) && at < |order| == |ys| == |zs| && forall i :: 0 <= i < |order| ==> 0 < order[i] < p
    requires forall i :: 0 <= i < |order| && i != at ==> ys[i] == zs[i]
    ensures WeightedSum(p, order, ys, order) % p == WeightedSum(p, order, zs, order) % p <==> Cong(p, ys[at], zs[at])
  {
    SumWithout(p, order, ys, at, order);
    SumWithout(p, order, zs, at, order);
    assert Without(ys, at) == Without(zs, at);
    CoefNonzero(p, order, order[at]);
    OneValueDecides(p, WeightedSum(p, Without(order, at), Without(ys, at), order), ys[at], zs[at], Coef(p, order, order[at]));
  }
}
