/** What the neutral test of a batch decides (ed25519-donna-batchverify.h). */
module BatchEquation {
  import opened Words
  import opened Bytes
  import opened PrimeField
  import opened Edwards
  import opened CurveGroup
  import opened ScalarModM
  import opened PointCodec
  import opened WeightedSums
  import opened MultiScalar
  import opened MultiScalarFinal
  import opened Ed25519
  import opened BatchSetup

  /** The single check with everything on one side: S B + h (-A) + (-R), for the points decoded from key and signature. */
  ghost function Residual(m: bytes, pk: bytes, rs: bytes, a: Point, n: Point): Point
    requires |rs| == 64
  {
    Plus(Plus(Mult(Challenge(rs, pk, m), a), Mult(LeVal(rs[32..]), BASE)), n)
  }

  /** A signature is accepted exactly when S is short, R is the canonical encoding of its point, and nothing remains. */
  lemma AcceptedBalances(m: bytes, pk: bytes, rs: bytes, a: Point, n: Point)
    requires CurveFacts() && BaseOrder() && |rs| == 64 && DecodesNegative(pk, a) && DecodesNegative(rs[..32], n)
    ensures OnCurve(a) && OnCurve(n) && OnCurve(Residual(m, pk, rs, a, n))
    ensures Accepts(m, pk, rs) <==> rs[63] < 32 && Encodes(rs[..32], Minus(n)) && Residual(m, pk, rs, a, n) == NEUTRAL
  {
    hide CurveFacts, BaseOrder, OfOrderL, Mult, Plus, LeVal, Challenge, Encodes, DecodesNegative, OnCurve, Minus;
    var c := Check(m, pk, rs, a);
    Facts();
    DecodedOnCurve(pk, a);
    DecodedOnCurve(rs[..32], n);
    BaseOnCurve();
    OrderOfBase();
    MultModL(LeVal(rs[32..]), BASE);
    MultOnCurve(Challenge(rs, pk, m), a);
    MultOnCurve(LeVal(rs[32..]), BASE);
    AlwaysAddable(Mult(Challenge(rs, pk, m), a), Mult(LeVal(rs[32..]), BASE));
    AlwaysAddable(c, n);
    if Accepts(m, pk, rs) {
      var d :| DecodesNegative(pk, d) && Encodes(rs[..32], Check(m, pk, rs, d));
      DecodeUnique(pk, a, d);
      DecodeOfEncode(rs[..32], c, n);
      PlusOpposite(c);
      MinusMinus(c);
    }
    if Plus(c, n) == NEUTRAL {
      Opposite(c, n);
    }
  }

  /** r h A + r s B + r N = r (h A + s B + N). */
  lemma Weighted(r: nat, h: nat, s: nat, a: Point, n: Point)
    requires CurveFacts() && OnCurve(a) && OnCurve(n)
    ensures Plus(Plus(Mult(h * r, a), Mult(s * r, BASE)), Mult(r, n)) == Mult(r, Plus(Plus(Mult(h, a), Mult(s, BASE)), n))
    ensures OnCurve(Plus(Plus(Mult(h, a), Mult(s, BASE)), n))
  {
    hide *;
    BaseOnCurve();
    MultOnCurve(h, a);
    MultOnCurve(s, BASE);
    AlwaysAddable(Mult(h, a), Mult(s, BASE));
    AlwaysAddable(Plus(Mult(h, a), Mult(s, BASE)), n);
    MultSum(r, Plus(Mult(h, a), Mult(s, BASE)), n);
    MultSum(r, Mult(h, a), Mult(s, BASE));
    MultMul(r, h, a);
    MultMul(r, s, BASE);
    assert r * h == h * r && r * s == s * r;
  }

  /** (x + y) + z and (u + v) + w add up term by term. */
  lemma AddTriples(x: Point, y: Point, z: Point, u: Point, v: Point, w: Point)
    requires CurveFacts() && OnCurve(x) && OnCurve(y) && OnCurve(z) && OnCurve(u) && OnCurve(v) && OnCurve(w)
    ensures Plus(Plus(Plus(x, u), Plus(y, v)), Plus(z, w)) == Plus(Plus(Plus(x, y), z), Plus(Plus(u, v), w))
  {
    hide *;
    PlusFour(x, u, y, v);
    PlusFour(x, y, u, v);
    PlusFour(Plus(x, y), Plus(u, v), z, w);
  }

  /** Every key of the batch lies in the subgroup of the base point's order. */
  ghost predicate InSubgroup(a: seq<Point>, b: nat) {
    b < |a| && forall i :: 1 <= i <= b ==> OfOrderL(a[i])
  }

  ghost predicate AllAccepted(m: seq<bytes>, pk: seq<bytes>, rs: seq<bytes>) {
    |m| == |pk| == |rs| && forall i :: 0 <= i < |m| ==> Accepts(m[i], pk[i], rs[i])
  }

  /** The terms of signature `i` in the batch. */
  lemma Terms(m: seq<bytes>, pk: seq<bytes>, rs: seq<bytes>, rnd: seq<bytes>, i: nat)
    requires Batch(m, pk, rs, rnd) && i < |m|
    ensures Coefficients(m, pk, rs, rnd)[i + 1] == Product(Challenge(rs[i], pk[i], m[i]), Random(rnd, i)) % L
    ensures Coefficients(m, pk, rs, rnd)[|m| + i + 1] == Random(rnd, i)
  {
    hide Challenge, Random, ScalarSum, Product;
  }

  lemma FirstCoefficient(m: seq<bytes>, pk: seq<bytes>, rs: seq<bytes>, rnd: seq<bytes>)
    requires Batch(m, pk, rs, rnd)
    ensures Coefficients(m, pk, rs, rnd)[0] == ScalarSum(rs, rnd, |m|) % L
  {
    hide Challenge, Random, ScalarSum, Product;
  }

  lemma PointsOnCurve(a: seq<Point>, pk: seq<bytes>, rs: seq<bytes>)
    requires BatchPoints(a, pk, rs)
    ensures OnCurveAll(a, |a|)
  {
    hide OnCurve, DecodesNegative;
    var b := |pk|;
    BaseOnCurve();
    forall i | 0 <= i < |a| ensures OnCurve(a[i]) {
      if 1 <= i <= b {
        assert DecodesNegative(pk[i - 1], a[(i - 1) + 1]);
        DecodedOnCurve(pk[i - 1], a[i]);
      } else if i > b {
        assert DecodesNegative(rs[i - b - 1][..32], a[b + (i - b - 1) + 1]);
        DecodedOnCurve(rs[i - b - 1][..32], a[i]);
      }
    }
  }

  /** The multiple of L that reducing r h modulo L takes away from signature `i`. */
  ghost function Lost(m: seq<bytes>, pk: seq<bytes>, rs: seq<bytes>, rnd: seq<bytes>, i: nat): int
    requires Batch(m, pk, rs, rnd) && i < |m|
  {
    L * (Product(Challenge(rs[i], pk[i], m[i]), Random(rnd, i)) / L)
  }

  /** The part of the first `k` keys outside the subgroup of order L, weighted by what the reductions lose. */
  ghost function Torsion(m: seq<bytes>, pk: seq<bytes>, rs: seq<bytes>, rnd: seq<bytes>, a: seq<Point>, k: nat): Point
    requires Batch(m, pk, rs, rnd) && k <= |m| < |a|
  {
    if k == 0 then NEUTRAL else Plus(Torsion(m, pk, rs, rnd, a, k - 1), Mult(Lost(m, pk, rs, rnd, k - 1), a[k]))
  }

  lemma {:induction false} TorsionOnCurve(m: seq<bytes>, pk: seq<bytes>, rs: seq<bytes>, rnd: seq<bytes>, a: seq<Point>, k: nat)
    requires CurveFacts() && Batch(m, pk, rs, rnd) && k <= |m| < |a| && OnCurveAll(a, |a|)
    ensures OnCurve(Torsion(m, pk, rs, rnd, a, k))
  {
    hide CurveFacts, OnCurve, Plus, Mult, Lost;
    if k == 0 {
      NeutralOnCurve();
    } else {
      TorsionOnCurve(m, pk, rs, rnd, a, k - 1);
      MultOnCurve(Lost(m, pk, rs, rnd, k - 1), a[k]);
      AlwaysAddable(Torsion(m, pk, rs, rnd, a, k - 1), Mult(Lost(m, pk, rs, rnd, k - 1), a[k]));
    }
  }

  /** Keys in the subgroup lose nothing. */
  lemma {:induction false} NoTorsion(m: seq<bytes>, pk: seq<bytes>, rs: seq<bytes>, rnd: seq<bytes>, a: seq<Point>, k: nat)
    requires CurveFacts() && Batch(m, pk, rs, rnd) && k <= |m| && InSubgroup(a, |m|)
    ensures Torsion(m, pk, rs, rnd, a, k) == NEUTRAL
  {
    hide CurveFacts, Plus, Mult, OfOrderL, Lost;
    NeutralOnCurve();
    PlusNeutral(NEUTRAL);
    if k > 0 {
      NoTorsion(m, pk, rs, rnd, a, k - 1);
      NothingLost(m, pk, rs, rnd, k - 1, a[k]);
    }
  }

  lemma NothingLost(m: seq<bytes>, pk: seq<bytes>, rs: seq<bytes>, rnd: seq<bytes>, i: nat, a: Point)
    requires Batch(m, pk, rs, rnd) && i < |m| && OfOrderL(a)
    ensures Mult(Lost(m, pk, rs, rnd, i), a) == NEUTRAL
  {
    hide Mult, OfOrderL, Product, Challenge, Random;
    Vanish(Product(Challenge(rs[i], pk[i], m[i]), Random(rnd, i)) / L, a);
  }

  lemma Vanish(q: int, a: Point)
    requires OfOrderL(a)
    ensures Mult(L * q, a) == NEUTRAL
  {
    hide Mult;
    MultipleOfL(q);
  }

  lemma MultipleOfL(q: int)
    ensures L * q % L == 0
  {}

  /** What remains of signature `i` in the batch. */
  ghost function Remains(m: seq<bytes>, pk: seq<bytes>, rs: seq<bytes>, rnd: seq<bytes>, a: seq<Point>, i: nat): Point
    requires Batch(m, pk, rs, rnd) && i < |m| && |a| == 2 * |m| + 1
  {
    Residual(m[i], pk[i], rs[i], a[i + 1], a[|m| + i + 1])
  }

  /** What remains of the first `k` signatures, weighted by the random values. */
  ghost function Errors(m: seq<bytes>, pk: seq<bytes>, rs: seq<bytes>, rnd: seq<bytes>, a: seq<Point>, k: nat): Point
    requires Batch(m, pk, rs, rnd) && k <= |m| && |a| == 2 * |m| + 1
  {
    if k == 0 then NEUTRAL
    else Plus(Errors(m, pk, rs, rnd, a, k - 1), Mult(Random(rnd, k - 1), Remains(m, pk, rs, rnd, a, k - 1)))
  }

  lemma MoveLast(x: Point, q: Point, y: Point, z: Point)
    requires CurveFacts() && OnCurve(x) && OnCurve(q) && OnCurve(y) && OnCurve(z)
    ensures Plus(Plus(Plus(x, q), y), z) == Plus(Plus(Plus(x, y), z), q)
  {
    hide *;
    PlusAssoc(x, q, y);
    PlusAssoc(q, y, y);
    PlusAssoc(x, y, q);
    AlwaysAddable(x, y);
    PlusAssoc(Plus(x, y), q, z);
    PlusAssoc(q, z, z);
    PlusAssoc(Plus(x, y), z, q);
  }

  /** The contribution of signature `i`, with what its reduction loses, is what remains of it. */
  lemma OneSignature(m: seq<bytes>, pk: seq<bytes>, rs: seq<bytes>, rnd: seq<bytes>, a: seq<Point>, i: nat)
    requires CurveFacts() && BaseOrder() && Batch(m, pk, rs, rnd) && BatchPoints(a, pk, rs) && i < |m|
    ensures var v := Coefficients(m, pk, rs, rnd);
            var s := Product(LeVal(rs[i][32..]), Random(rnd, i));
            Plus(Plus(Plus(Mult(v[i + 1], a[i + 1]), Mult(s, BASE)), Mult(v[|m| + i + 1], a[|m| + i + 1])),
                 Mult(Lost(m, pk, rs, rnd, i), a[i + 1])) == Mult(Random(rnd, i), Remains(m, pk, rs, rnd, a, i))
    ensures OnCurve(Remains(m, pk, rs, rnd, a, i))
  {
    hide CurveFacts, BaseOrder, OfOrderL, Accepts, Mult, Plus, LeVal, Challenge, DecodesNegative, OnCurve, Random, Product,
         Coefficients, ScalarSum;
    var h, r, s := Challenge(rs[i], pk[i], m[i]), Random(rnd, i), LeVal(rs[i][32..]);
    var x, n := a[i + 1], a[|m| + i + 1];
    Terms(m, pk, rs, rnd, i);
    DecodedOnCurve(pk[i], x);
    DecodedOnCurve(rs[i][..32], n);
    Weighted(r, h, s, x, n);
    ProductIs(h, r);
    ProductIs(s, r);
    DivideL(Product(h, r));
    MultAdd(Product(h, r) % L, Lost(m, pk, rs, rnd, i), x);
    BaseOnCurve();
    MultOnCurve(Product(h, r) % L, x);
    MultOnCurve(Lost(m, pk, rs, rnd, i), x);
    MultOnCurve(Product(s, r), BASE);
    MultOnCurve(r, n);
    MoveLast(Mult(Product(h, r) % L, x), Mult(Lost(m, pk, rs, rnd, i), x), Mult(Product(s, r), BASE), Mult(r, n));
  }

  /** The first `k` signatures together. */
  lemma {:induction false} FirstSignatures(m: seq<bytes>, pk: seq<bytes>, rs: seq<bytes>, rnd: seq<bytes>, a: seq<Point>,
                                           k: nat)
    requires CurveFacts() && BaseOrder() && Batch(m, pk, rs, rnd) && BatchPoints(a, pk, rs) && k <= |m|
    ensures var v, b := Coefficients(m, pk, rs, rnd), |m|;
            Plus(Plus(Plus(Total(v, a, 1, k + 1), Mult(ScalarSum(rs, rnd, k), BASE)), Total(v, a, b + 1, b + k + 1)),
                 Torsion(m, pk, rs, rnd, a, k)) == Errors(m, pk, rs, rnd, a, k)
    decreases k
  {
    hide CurveFacts, BaseOrder, OfOrderL, Mult, Plus, LeVal, Challenge, OnCurve, Random, Product, Coefficients, BatchPoints,
         Lost, Remains;
    var v, b := Coefficients(m, pk, rs, rnd), |m|;
    PointsLength(a, pk, rs);
    BaseOnCurve();
    NeutralOnCurve();
    MultZeroOne(BASE);
    PlusNeutral(NEUTRAL);
    if k > 0 {
      var i := k - 1;
      FirstSignatures(m, pk, rs, rnd, a, i);
      OneSignature(m, pk, rs, rnd, a, i);
      PointsOnCurve(a, pk, rs);
      var x, y, z := Total(v, a, 1, i + 1), Mult(ScalarSum(rs, rnd, i), BASE), Total(v, a, b + 1, b + i + 1);
      var s := Product(LeVal(rs[i][32..]), Random(rnd, i));
      var u, t, w := Mult(v[i + 1], a[i + 1]), Mult(s, BASE), Mult(v[b + i + 1], a[b + i + 1]);
      var e, f := Torsion(m, pk, rs, rnd, a, i), Mult(Lost(m, pk, rs, rnd, i), a[i + 1]);
      TotalOnCurve(v, a, 1, i + 1);
      TotalOnCurve(v, a, b + 1, b + i + 1);
      TorsionOnCurve(m, pk, rs, rnd, a, i);
      MultOnCurve(ScalarSum(rs, rnd, i), BASE);
      MultOnCurve(s, BASE);
      MultOnCurve(v[i + 1], a[i + 1]);
      MultOnCurve(v[b + i + 1], a[b + i + 1]);
      MultOnCurve(Lost(m, pk, rs, rnd, i), a[i + 1]);
      MultAdd(ScalarSum(rs, rnd, i), s, BASE);
      AddFours(x, y, z, e, u, t, w, f);
    }
  }

  lemma AddFours(x: Point, y: Point, z: Point, e: Point, u: Point, v: Point, w: Point, f: Point)
    requires CurveFacts() && OnCurve(x) && OnCurve(y) && OnCurve(z) && OnCurve(e)
    requires OnCurve(u) && OnCurve(v) && OnCurve(w) && OnCurve(f)
    ensures Plus(Plus(Plus(Plus(x, u), Plus(y, v)), Plus(z, w)), Plus(e, f))
         == Plus(Plus(Plus(Plus(x, y), z), e), Plus(Plus(Plus(u, v), w), f))
  {
    hide *;
    AddTriples(x, y, z, u, v, w);
    AlwaysAddable(x, y);
    AlwaysAddable(Plus(x, y), z);
    AlwaysAddable(u, v);
    AlwaysAddable(Plus(u, v), w);
    PlusFour(Plus(Plus(x, y), z), Plus(Plus(u, v), w), e, f);
  }

  /** For every decoded batch, the weighted sum and what the reductions lose add up to what remains of the signatures. */
  lemma BatchSum(m: seq<bytes>, pk: seq<bytes>, rs: seq<bytes>, rnd: seq<bytes>, a: seq<Point>)
    requires CurveFacts() && BaseOrder() && Batch(m, pk, rs, rnd) && BatchPoints(a, pk, rs)
    ensures Plus(Total(Coefficients(m, pk, rs, rnd), a, 0, 2 * |m| + 1), Torsion(m, pk, rs, rnd, a, |m|))
         == Errors(m, pk, rs, rnd, a, |m|)
    ensures OnCurve(Total(Coefficients(m, pk, rs, rnd), a, 0, 2 * |m| + 1)) && OnCurve(Torsion(m, pk, rs, rnd, a, |m|))
  {
    hide CurveFacts, BaseOrder, OfOrderL, Mult, Plus, OnCurve, Coefficients, DecodesNegative, ScalarSum, Torsion, Errors;
    var v, b := Coefficients(m, pk, rs, rnd), |m|;
    PointsOnCurve(a, pk, rs);
    FirstSignatures(m, pk, rs, rnd, a, b);
    TorsionOnCurve(m, pk, rs, rnd, a, b);
    FirstCoefficient(m, pk, rs, rnd);
    BaseOnCurve();
    NeutralOnCurve();
    OrderOfBase();
    MultModL(ScalarSum(rs, rnd, b), BASE);
    var y := Mult(ScalarSum(rs, rnd, b), BASE);
    MultOnCurve(ScalarSum(rs, rnd, b), BASE);
    assert Total(v, a, 0, 1) == Plus(NEUTRAL, y) by {
      assert Total(v, a, 0, 0) == NEUTRAL;
    }
    PlusAssoc(NEUTRAL, y, y);
    PlusNeutral(y);
    TotalOnCurve(v, a, 1, b + 1);
    TotalOnCurve(v, a, b + 1, 2 * b + 1);
    TotalSplit(v, a, 0, 1, b + 1);
    TotalSplit(v, a, 0, b + 1, 2 * b + 1);
    PlusAssoc(y, Total(v, a, 1, b + 1), y);
    TotalOnCurve(v, a, 0, 2 * b + 1);
  }

  /** Nothing remains of any signature but `j`. */
  ghost predicate OthersBalance(m: seq<bytes>, pk: seq<bytes>, rs: seq<bytes>, rnd: seq<bytes>, a: seq<Point>, j: nat)
    requires Batch(m, pk, rs, rnd) && |a| == 2 * |m| + 1
  {
    forall i :: 0 <= i < |m| && i != j ==> Remains(m, pk, rs, rnd, a, i) == NEUTRAL
  }

  lemma {:induction false} OneError(m: seq<bytes>, pk: seq<bytes>, rs: seq<bytes>, rnd: seq<bytes>, a: seq<Point>, j: nat,
                                    k: nat)
    requires CurveFacts() && BaseOrder() && Batch(m, pk, rs, rnd) && BatchPoints(a, pk, rs) && k <= |m| && j <= |m| == |pk|
    requires OthersBalance(m, pk, rs, rnd, a, j)
    ensures Errors(m, pk, rs, rnd, a, k)
         == if j < k then Mult(Random(rnd, j), Remains(m, pk, rs, rnd, a, j)) else NEUTRAL
    decreases k
  {
    hide CurveFacts, BaseOrder, Mult, Plus, OnCurve, Random, Remains, BatchPoints, Coefficients, Lost;
    PointsLength(a, pk, rs);
    NeutralOnCurve();
    PlusNeutral(NEUTRAL);
    if k > 0 {
      OneError(m, pk, rs, rnd, a, j, k - 1);
      OneSignature(m, pk, rs, rnd, a, k - 1);
      NeutralMultiple(Random(rnd, k - 1));
      if j < k {
        OneSignature(m, pk, rs, rnd, a, j);
        var e := Mult(Random(rnd, j), Remains(m, pk, rs, rnd, a, j));
        MultOnCurve(Random(rnd, j), Remains(m, pk, rs, rnd, a, j));
        PlusNeutral(e);
        PlusAssoc(NEUTRAL, e, e);
      }
    }
  }

  lemma AcceptedRemains(m: seq<bytes>, pk: seq<bytes>, rs: seq<bytes>, rnd: seq<bytes>, a: seq<Point>, i: nat)
    requires CurveFacts() && BaseOrder() && Batch(m, pk, rs, rnd) && BatchPoints(a, pk, rs) && i < |m|
    requires Accepts(m[i], pk[i], rs[i])
    ensures Remains(m, pk, rs, rnd, a, i) == NEUTRAL
  {
    hide CurveFacts, BaseOrder, Accepts, Residual, DecodesNegative;
    AcceptedBalances(m[i], pk[i], rs[i], a[i + 1], a[|m| + i + 1]);
  }

  /** Every signature but `j` is accepted on its own. */
  ghost predicate OthersAccepted(m: seq<bytes>, pk: seq<bytes>, rs: seq<bytes>, j: nat) {
    |m| == |pk| == |rs| && forall i :: 0 <= i < |m| && i != j ==> Accepts(m[i], pk[i], rs[i])
  }

  lemma AcceptedBalance(m: seq<bytes>, pk: seq<bytes>, rs: seq<bytes>, rnd: seq<bytes>, a: seq<Point>, j: nat)
    requires CurveFacts() && BaseOrder() && Batch(m, pk, rs, rnd) && BatchPoints(a, pk, rs) && OthersAccepted(m, pk, rs, j)
    ensures |a| == 2 * |m| + 1 && OthersBalance(m, pk, rs, rnd, a, j)
  {
    hide CurveFacts, BaseOrder, Accepts, Remains, DecodesNegative;
    forall i | 0 <= i < |m| && i != j ensures Remains(m, pk, rs, rnd, a, i) == NEUTRAL {
      AcceptedRemains(m, pk, rs, rnd, a, i);
    }
  }

  /**
   * When every signature of a batch is accepted on its own, the weighted sum is the opposite of the torsion that the
   * reductions lose, whatever the random values; it is neutral exactly when that is.
   */
  lemma AcceptedSum(m: seq<bytes>, pk: seq<bytes>, rs: seq<bytes>, rnd: seq<bytes>, a: seq<Point>)
    requires CurveFacts() && BaseOrder() && Batch(m, pk, rs, rnd) && BatchPoints(a, pk, rs) && AllAccepted(m, pk, rs)
    ensures var total := Total(Coefficients(m, pk, rs, rnd), a, 0, 2 * |m| + 1);
            var torsion := Torsion(m, pk, rs, rnd, a, |m|);
            total == Minus(torsion) && (total == NEUTRAL <==> torsion == NEUTRAL)
  {
    hide CurveFacts, BaseOrder, Accepts, Plus, Minus, OnCurve, Coefficients, Torsion, Errors, Remains, Total, DecodesNegative;
    AcceptedBalance(m, pk, rs, rnd, a, |m|);
    OneError(m, pk, rs, rnd, a, |m|, |m|);
    BatchSum(m, pk, rs, rnd, a);
    Opposite(Total(Coefficients(m, pk, rs, rnd), a, 0, 2 * |m| + 1), Torsion(m, pk, rs, rnd, a, |m|));
  }

  lemma Opposite(x: Point, t: Point)
    requires CurveFacts() && OnCurve(x) && OnCurve(t) && Plus(x, t) == NEUTRAL
    ensures x == Minus(t) && (x == NEUTRAL <==> t == NEUTRAL)
  {
    hide *;
    PlusOpposite(t);
    NeutralOnCurve();
    PlusAssoc(x, t, t);
    CancelLeft(t, x, Minus(t));
    PlusNeutral(x);
    PlusNeutral(t);
    PlusAssoc(NEUTRAL, t, t);
  }

  // ---- what the test decides ----

  ghost predicate InverseModL(n: int, u: int) {
    Product(u, n) % L == 1
  }

  ghost predicate HasInverse(n: int) {
    exists u :: InverseModL(n, u)
  }

  /** L is prime: everything below it has an inverse modulo L. */
  ghost predicate PrimeOrder() {
    forall n :: 0 < n < L ==> HasInverse(n)
  }

  /** No multiple below L of a point of order L is neutral, other than of the neutral point. */
  lemma OnlyNeutral(n: int, p: Point)
    requires CurveFacts() && PrimeOrder() && OnCurve(p) && Mult(L, p) == NEUTRAL && 0 < n < L
    ensures Mult(n, p) == NEUTRAL <==> p == NEUTRAL
  {
    hide CurveFacts, OnCurve, Mult, Product;
    if Mult(n, p) == NEUTRAL {
      assert HasInverse(n);
      var u :| InverseModL(n, u);
      ProductIs(u, n);
      MultMod(L, u * n, p);
      MultMul(u, n, p);
      NeutralMultiple(u);
      MultZeroOne(p);
    }
    if p == NEUTRAL {
      NeutralMultiple(n);
    }
  }

  lemma NeutralMultiple(r: int)
    requires CurveFacts()
    ensures Mult(r, NEUTRAL) == NEUTRAL
  {
    hide *;
    NeutralOnCurve();
    MultZeroOne(NEUTRAL);
    MultMul(r, 0, NEUTRAL);
    assert r * 0 == 0;
  }

  ghost predicate Reduced(v: seq<int>) {
    forall i :: 0 <= i < |v| ==> 0 <= v[i] < L
  }

  lemma CoefficientsReduced(m: seq<bytes>, pk: seq<bytes>, rs: seq<bytes>, rnd: seq<bytes>)
    requires Batch(m, pk, rs, rnd)
    ensures Reduced(Coefficients(m, pk, rs, rnd))
  {
    hide Challenge, ScalarSum, Product, LeVal;
  }

  /** When all take part, the scalar left is not 0 and has at most 128 bits. */
  lemma ShortScalar(s: nat, v: seq<int>)
    requires |v| >= 5 && Reduced(v) && AllTakePart(v, |v|) && Gcd(s, v, |v|)
    ensures 0 < s < TWO128
  {
    hide CommonDivisor, BigDivisor, Reduced;
    var n := FirstPart(|v|);
    var i, j :| 0 <= i < n && 0 <= j < n && i != j && v[i] != 0 && v[j] != 0;
    assert v[i] > 0 by { assert Reduced(v); ReducedAt(v, i); }
    if s == 0 {
      Zeroth(v[i] + 1);
      assert s % (v[i] + 1) == 0 <==> CommonDivisor(v[i] + 1, v, |v|);
      DividesEach(v[i] + 1, v, |v|, i);
      SmallNotMultiple(v[i], v[i] + 1);
    } else if s >= TWO128 {
      DividesItself(s);
      assert s % s == 0 <==> CommonDivisor(s, v, |v|);
      DivisorPrefix(s, v, n, |v|);
      NotBig(s, v, n);
    }
  }

  lemma ReducedAt(v: seq<int>, i: nat)
    requires Reduced(v) && i < |v|
    ensures 0 <= v[i] < L
  {}

  lemma Zeroth(g: int)
    requires g > 0
    ensures 0 % g == 0
  {}

  lemma DividesEach(g: int, v: seq<int>, n: nat, i: nat)
    requires CommonDivisor(g, v, n) && i < n
    ensures v[i] % g == 0
  {}

  lemma NotBig(g: int, v: seq<int>, n: nat)
    requires CommonDivisor(g, v, n) && !BigDivisor(v, n)
    ensures g < TWO128
  {}

  lemma ShortFactor(s: nat)
    requires 0 < s < TWO128
    ensures Taken(s) && 0 < Factor(s) < L
  {
    hide PowerAbove;
    assert s % LOW4 == s;
    PowerAboveBounds(s);
  }

  /** The final test: the multiplication finds its first limb, and its multiple of the point left is neutral. */
  ghost predicate Neutral(s: nat, p: Point) {
    Taken(s) && Mult(Factor(s), p) == NEUTRAL
  }

  /** On points of order L whose coefficients all take part, the test decides exactly whether the weighted sum is neutral. */
  lemma SumDecides(v: seq<int>, a: seq<Point>, s: nat, p: Point)
    requires CurveFacts() && PrimeOrder() && |v| == |a| >= 5 && Reduced(v) && AllTakePart(v, |v|) && Annihilates(L, a, |a|)
    requires Leaves(v, a, |v|, s, p)
    ensures Neutral(s, p) <==> Total(v, a, 0, |v|) == NEUTRAL
  {
    hide CurveFacts, PrimeOrder, OnCurve, Mult, Total, Annihilates, AllTakePart, Gcd, Reduced;
    ShortScalar(s, v);
    ShortFactor(s);
    assert Mult(L, p) == NEUTRAL;
    OnlyNeutral(s, p);
    OnlyNeutral(Factor(s), p);
  }

  // ---- verdicts ----

  /** One run over a batch: its points, and what the multiplication leaves. */
  ghost predicate Run(m: seq<bytes>, pk: seq<bytes>, rs: seq<bytes>, rnd: seq<bytes>, a: seq<Point>, s: nat, p: Point)
    requires Batch(m, pk, rs, rnd)
  {
    BatchPoints(a, pk, rs) && Leaves(Coefficients(m, pk, rs, rnd), a, 2 * |m| + 1, s, p)
  }

  /** What happened to a batch: a key or an R could not be decoded, or the test passed, or it failed. */
  datatype Verdict = Undecodable | Passed | Failed

  ghost predicate Explains(m: seq<bytes>, pk: seq<bytes>, rs: seq<bytes>, rnd: seq<bytes>, verdict: Verdict)
    requires Batch(m, pk, rs, rnd)
  {
    match verdict
    case Undecodable => !AllDecode(pk, rs)
    case Passed => AllDecode(pk, rs) && exists a, s, p :: Run(m, pk, rs, rnd, a, s, p) && Neutral(s, p)
    case Failed => AllDecode(pk, rs) && exists a, s, p :: Run(m, pk, rs, rnd, a, s, p) && !Neutral(s, p)
  }

  /** On points of order L whose coefficients all take part, a batch passes exactly when its weighted sum is neutral. */
  lemma VerdictDecided(m: seq<bytes>, pk: seq<bytes>, rs: seq<bytes>, rnd: seq<bytes>, a: seq<Point>, verdict: Verdict)
    requires CurveFacts() && PrimeOrder() && Batch(m, pk, rs, rnd) && |m| >= 2 && BatchPoints(a, pk, rs) && AllDecode(pk, rs)
    requires Annihilates(L, a, |a|) && AllTakePart(Coefficients(m, pk, rs, rnd), 2 * |m| + 1)
    requires Explains(m, pk, rs, rnd, verdict)
    ensures verdict.Passed? <==> Total(Coefficients(m, pk, rs, rnd), a, 0, 2 * |m| + 1) == NEUTRAL
  {
    hide CurveFacts, PrimeOrder, BatchPoints, AllDecode, Annihilates, AllTakePart, Total, Coefficients, Leaves, Neutral;
    PointsLength(a, pk, rs);
    CoefficientsReduced(m, pk, rs, rnd);
    var v := Coefficients(m, pk, rs, rnd);
    forall c, s, p | Run(m, pk, rs, rnd, c, s, p) ensures Neutral(s, p) <==> Total(v, a, 0, |v|) == NEUTRAL {
      SamePoints(a, c, pk, rs);
      SumDecides(v, a, s, p);
    }
  }

  /** For such points nothing is lost to the reductions: the batch passes exactly when the weighted residuals cancel. */
  lemma PassedIffCancelled(m: seq<bytes>, pk: seq<bytes>, rs: seq<bytes>, rnd: seq<bytes>, a: seq<Point>, verdict: Verdict)
    requires CurveFacts() && BaseOrder() && PrimeOrder() && Batch(m, pk, rs, rnd) && |m| >= 2 && BatchPoints(a, pk, rs)
    requires AllDecode(pk, rs) && Annihilates(L, a, |a|) && AllTakePart(Coefficients(m, pk, rs, rnd), 2 * |m| + 1)
    requires Explains(m, pk, rs, rnd, verdict)
    ensures verdict.Passed? <==> Errors(m, pk, rs, rnd, a, |m|) == NEUTRAL
  {
    hide CurveFacts, BaseOrder, PrimeOrder, Plus, OnCurve, AllDecode, AllTakePart, Explains, Coefficients, Torsion, Errors,
         Total, Annihilates, InSubgroup, DecodesNegative;
    PointsOnCurve(a, pk, rs);
    AnnihilatedKeys(a, |m|);
    BatchSum(m, pk, rs, rnd, a);
    NoTorsion(m, pk, rs, rnd, a, |m|);
    PlusNeutral(Total(Coefficients(m, pk, rs, rnd), a, 0, 2 * |m| + 1));
    VerdictDecided(m, pk, rs, rnd, a, verdict);
  }

  lemma AnnihilatedKeys(a: seq<Point>, b: nat)
    requires CurveFacts() && OnCurveAll(a, |a|) && Annihilates(L, a, |a|) && b < |a|
    ensures InSubgroup(a, b)
  {
    hide CurveFacts, OnCurve, Mult;
    forall i, n | 1 <= i <= b && n % L == 0 ensures Mult(n, a[i]) == NEUTRAL {
      MultMod(L, n, a[i]);
      MultZeroOne(a[i]);
    }
  }

  lemma SamePoints(a: seq<Point>, c: seq<Point>, pk: seq<bytes>, rs: seq<bytes>)
    requires CurveFacts() && BatchPoints(a, pk, rs) && BatchPoints(c, pk, rs)
    ensures a == c
  {
    hide CurveFacts, PrimeFacts, DecodesNegative;
    Facts();
    var b := |pk|;
    forall i | 0 <= i < |a| ensures a[i] == c[i] {
      if 1 <= i <= b {
        assert DecodesNegative(pk[i - 1], a[(i - 1) + 1]) && DecodesNegative(pk[i - 1], c[(i - 1) + 1]);
        DecodeUnique(pk[i - 1], a[i], c[i]);
      } else if i > b {
        var j := i - b - 1;
        assert DecodesNegative(rs[j][..32], a[b + j + 1]) && DecodesNegative(rs[j][..32], c[b + j + 1]);
        DecodeUnique(rs[j][..32], a[i], c[i]);
      }
    }
  }

  /** Every point that a key can decode to has order L. */
  ghost predicate KeysInSubgroup(pk: seq<bytes>) {
    forall i, c :: 0 <= i < |pk| && DecodesNegative(pk[i], c) ==> OfOrderL(c)
  }

  /** A batch of accepted signatures by keys of order L, whose coefficients all take part. */
  ghost predicate Good(m: seq<bytes>, pk: seq<bytes>, rs: seq<bytes>, rnd: seq<bytes>)
    requires Batch(m, pk, rs, rnd)
  {
    AllAccepted(m, pk, rs) && KeysInSubgroup(pk) && AllTakePart(Coefficients(m, pk, rs, rnd), 2 * |m| + 1)
  }

  /** The R of an accepted signature by a key of order L has order L. */
  lemma AcceptedOrder(m: bytes, pk: bytes, rs: bytes, a: Point, n: Point)
    requires CurveFacts() && BaseOrder() && Accepts(m, pk, rs) && DecodesNegative(pk, a) && DecodesNegative(rs[..32], n)
    requires OfOrderL(a)
    ensures Mult(L, n) == NEUTRAL
  {
    hide CurveFacts, BaseOrder, OfOrderL, Check, Mult, Plus, LeVal, Challenge, DecodesNegative, OnCurve;
    var h, s := Challenge(rs, pk, m), LeVal(rs[32..]);
    AcceptedBalances(m, pk, rs, a, n);
    Weighted(L, h, s, a, n);
    NeutralMultiple(L);
    OrderOfBase();
    assert h * L == L * h && s * L == L * s;
    Vanish(h, a);
    Vanish(s, BASE);
    NeutralOnCurve();
    PlusNeutral(NEUTRAL);
    MultOnCurve(L, n);
    PlusAssoc(NEUTRAL, Mult(L, n), NEUTRAL);
    PlusNeutral(Mult(L, n));
  }

  lemma GoodAnnihilated(m: seq<bytes>, pk: seq<bytes>, rs: seq<bytes>, rnd: seq<bytes>, a: seq<Point>)
    requires CurveFacts() && BaseOrder() && Batch(m, pk, rs, rnd) && BatchPoints(a, pk, rs)
    requires AllAccepted(m, pk, rs) && KeysInSubgroup(pk)
    ensures Annihilates(L, a, |a|)
  {
    hide CurveFacts, BaseOrder, OfOrderL, Accepts, Mult, DecodesNegative, KeysInSubgroup;
    var b := |m|;
    OrderOfBase();
    OrderOf(BASE);
    forall i | 1 <= i <= b ensures Mult(L, a[i]) == NEUTRAL {
      assert DecodesNegative(pk[i - 1], a[(i - 1) + 1]);
      KeyOrder(pk, i - 1, a[i]);
      OrderOf(a[i]);
    }
    forall i | b < i < |a| ensures Mult(L, a[i]) == NEUTRAL {
      var j := i - b - 1;
      assert DecodesNegative(pk[j], a[j + 1]) && DecodesNegative(rs[j][..32], a[b + j + 1]);
      KeyOrder(pk, j, a[j + 1]);
      AcceptedOrder(m[j], pk[j], rs[j], a[j + 1], a[i]);
    }
  }

  lemma KeyOrder(pk: seq<bytes>, i: nat, c: Point)
    requires KeysInSubgroup(pk) && i < |pk| && DecodesNegative(pk[i], c)
    ensures OfOrderL(c)
  {}

  lemma EveryOther(m: seq<bytes>, pk: seq<bytes>, rs: seq<bytes>)
    requires AllAccepted(m, pk, rs)
    ensures OthersAccepted(m, pk, rs, |m|)
  {
    hide Accepts;
  }

  /** Whatever happened to a good batch, it passed. */
  lemma GoodPasses(m: seq<bytes>, pk: seq<bytes>, rs: seq<bytes>, rnd: seq<bytes>, verdict: Verdict)
    requires CurveFacts() && BaseOrder() && PrimeOrder() && Batch(m, pk, rs, rnd) && |m| >= 2
    requires Good(m, pk, rs, rnd) && Explains(m, pk, rs, rnd, verdict)
    ensures verdict.Passed?
  {
    hide CurveFacts, BaseOrder, PrimeOrder, AllDecode, AllAccepted, KeysInSubgroup, AllTakePart, Coefficients, BatchPoints,
         Leaves, Annihilates, Neutral, Errors, OthersBalance, OthersAccepted;
    AcceptedDecode(m, pk, rs);
    if verdict.Failed? {
      var a, s, p :| Run(m, pk, rs, rnd, a, s, p) && !Neutral(s, p);
      PointsLength(a, pk, rs);
      GoodAnnihilated(m, pk, rs, rnd, a);
      EveryOther(m, pk, rs);
      AcceptedBalance(m, pk, rs, rnd, a, |m|);
      OneError(m, pk, rs, rnd, a, |m|, |m|);
      PassedIffCancelled(m, pk, rs, rnd, a, verdict);
    }
  }

  lemma AcceptedDecode(m: seq<bytes>, pk: seq<bytes>, rs: seq<bytes>)
    requires CurveFacts() && AllAccepted(m, pk, rs) && forall i :: 0 <= i < |rs| ==> |rs[i]| == 64
    ensures AllDecode(pk, rs)
  {
    hide CurveFacts, Accepts, HasRoot;
    forall i | 0 <= i < |m| ensures HasRoot(pk[i]) && HasRoot(rs[i][..32]) {
      AcceptedDecodes(m[i], pk[i], rs[i]);
      AcceptedHasRoot(m[i], pk[i], rs[i]);
    }
  }

  lemma AcceptedHasRoot(m: bytes, pk: bytes, rs: bytes)
    requires CurveFacts() && Accepts(m, pk, rs)
    ensures HasRoot(rs[..32])
  {
    hide CurveFacts, DecodesNegative, HasRoot, Encodes, OnCurve, Mult, Plus, LeVal, Challenge;
    var a :| DecodesNegative(pk, a) && Encodes(rs[..32], Check(m, pk, rs, a));
    DecodedOnCurve(pk, a);
    BaseOnCurve();
    MultOnCurve(Challenge(rs, pk, m), a);
    MultOnCurve(LeVal(rs[32..]) % L, BASE);
    AlwaysAddable(Mult(Challenge(rs, pk, m), a), Mult(LeVal(rs[32..]) % L, BASE));
    EncodingHasRoot(rs[..32], Check(m, pk, rs, a));
  }
}
