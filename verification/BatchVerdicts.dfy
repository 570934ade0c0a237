/** Which signatures the batch test lets through, and which it does not (ed25519-donna-batchverify.h). */
module BatchVerdicts {
  import opened Words
  import opened Bytes
  import opened PrimeField
  import opened Edwards
  import opened CurveGroup
  import opened ScalarModM
  import opened PointCodec
  import opened WeightedSums
  import opened MultiScalar
  import opened MultiScalarFinal
  import opened Ed25519
  import opened BatchSetup
  import opened BatchEquation

  // ---- one signature in doubt ----

  lemma RemainsOrder(m: seq<bytes>, pk: seq<bytes>, rs: seq<bytes>, rnd: seq<bytes>, a: seq<Point>, j: nat)
    requires CurveFacts() && BaseOrder() && Batch(m, pk, rs, rnd) && BatchPoints(a, pk, rs) && Annihilates(L, a, |a|) && j < |m|
    ensures var e := Remains(m, pk, rs, rnd, a, j); OnCurve(e) && Mult(L, e) == NEUTRAL
  {
    hide CurveFacts, BaseOrder, OfOrderL, Mult, Plus, OnCurve, DecodesNegative, LeVal, Challenge;
    var h, s, x, n := Challenge(rs[j], pk[j], m[j]), LeVal(rs[j][32..]), a[j + 1], a[|m| + j + 1];
    DecodedOnCurve(pk[j], x);
    DecodedOnCurve(rs[j][..32], n);
    Weighted(L, h, s, x, n);
    OrderOfBase();
    BaseOnCurve();
    OrderOf(BASE);
    MultMul(h, L, x);
    MultMul(s, L, BASE);
    NeutralMultiple(h);
    NeutralMultiple(s);
    NeutralOnCurve();
    PlusNeutral(NEUTRAL);
  }

  /**
   * With every other signature balanced, on points of order L whose coefficients all take part: the batch passes exactly
   * when nothing remains of signature `j`, or its random value is 0.
   */
  lemma OneInDoubt(m: seq<bytes>, pk: seq<bytes>, rs: seq<bytes>, rnd: seq<bytes>, a: seq<Point>, j: nat, verdict: Verdict)
    requires CurveFacts() && BaseOrder() && PrimeOrder() && Batch(m, pk, rs, rnd) && |m| >= 2 && BatchPoints(a, pk, rs)
    requires AllDecode(pk, rs) && AllTakePart(Coefficients(m, pk, rs, rnd), 2 * |m| + 1) && Explains(m, pk, rs, rnd, verdict)
    requires Annihilates(L, a, |a|) && j < |m| && OthersBalance(m, pk, rs, rnd, a, j)
    ensures verdict.Passed? <==> Random(rnd, j) == 0 || Remains(m, pk, rs, rnd, a, j) == NEUTRAL
  {
    hide CurveFacts, BaseOrder, PrimeOrder, Mult, OnCurve, AllDecode, AllTakePart, Explains, Coefficients, Errors, Remains,
         Annihilates, Random, DecodesNegative, OthersBalance;
    OneError(m, pk, rs, rnd, a, j, |m|);
    RemainsOrder(m, pk, rs, rnd, a, j);
    ShortRandom(rnd, j);
    if Random(rnd, j) == 0 {
      MultZeroOne(Remains(m, pk, rs, rnd, a, j));
    } else {
      OnlyNeutral(Random(rnd, j), Remains(m, pk, rs, rnd, a, j));
    }
    PassedIffCancelled(m, pk, rs, rnd, a, verdict);
  }

  // ---- other forms of the same signature ----

  /** A batch with the same R, and S that agree modulo L. */
  ghost predicate SameForms(rs: seq<bytes>, qs: seq<bytes>) {
    |rs| == |qs| && forall i :: 0 <= i < |rs| ==> SameForm(rs[i], qs[i])
  }

  ghost predicate SameForm(rs: bytes, qs: bytes) {
    |rs| == 64 && |qs| == 64 && rs[..32] == qs[..32] && LeVal(rs[32..]) % L == LeVal(qs[32..]) % L
  }

  lemma {:induction false} SameSum(rs: seq<bytes>, qs: seq<bytes>, rnd: seq<bytes>, n: nat)
    requires SameForms(rs, qs) && n <= |rs| == |rnd|
    ensures ScalarSum(rs, rnd, n) % L == ScalarSum(qs, rnd, n) % L
    decreases n
  {
    hide LeVal, Random, Product;
    if n > 0 {
      SameSum(rs, qs, rnd, n - 1);
      assert SameForm(rs[n - 1], qs[n - 1]);
      SumNext(rs, rnd, n - 1);
      SumNext(qs, rnd, n - 1);
    }
  }

  lemma SameCoefficients(m: seq<bytes>, pk: seq<bytes>, rs: seq<bytes>, qs: seq<bytes>, rnd: seq<bytes>)
    requires Batch(m, pk, rs, rnd) && Batch(m, pk, qs, rnd) && SameForms(rs, qs)
    ensures Coefficients(m, pk, rs, rnd) == Coefficients(m, pk, qs, rnd)
  {
    hide Coefficients, ScalarSum, SameForms, Challenge, Random, Product;
    var v, w, b := Coefficients(m, pk, rs, rnd), Coefficients(m, pk, qs, rnd), |m|;
    FirstCoefficient(m, pk, rs, rnd);
    FirstCoefficient(m, pk, qs, rnd);
    SameSum(rs, qs, rnd, b);
    forall i | 0 <= i < 2 * b + 1 ensures v[i] == w[i] {
      if i > 0 {
        var j := if i <= b then i - 1 else i - b - 1;
        Terms(m, pk, rs, rnd, j);
        Terms(m, pk, qs, rnd, j);
        SameChallenge(m[j], pk[j], rs, qs, j);
      }
    }
  }

  lemma SameChallenge(m: bytes, pk: bytes, rs: seq<bytes>, qs: seq<bytes>, i: nat)
    requires SameForms(rs, qs) && i < |rs|
    ensures |rs[i]| == |qs[i]| == 64 && Challenge(rs[i], pk, m) == Challenge(qs[i], pk, m)
  {
    hide LeVal;
    assert SameForm(rs[i], qs[i]);
  }

  lemma SamePoint(a: seq<Point>, pk: seq<bytes>, rs: seq<bytes>, qs: seq<bytes>)
    requires SameForms(rs, qs)
    ensures BatchPoints(a, pk, rs) <==> BatchPoints(a, pk, qs)
  {
    hide DecodesNegative, LeVal;
    forall i | 0 <= i < |rs| ensures |rs[i]| == |qs[i]| == 64 && rs[i][..32] == qs[i][..32] {
      assert SameForm(rs[i], qs[i]);
    }
  }

  /** The batch test sees S only modulo L: other forms of the signatures get the same verdicts. */
  lemma SameVerdict(m: seq<bytes>, pk: seq<bytes>, rs: seq<bytes>, qs: seq<bytes>, rnd: seq<bytes>, verdict: Verdict)
    requires Batch(m, pk, rs, rnd) && Batch(m, pk, qs, rnd) && SameForms(rs, qs)
    ensures Explains(m, pk, rs, rnd, verdict) <==> Explains(m, pk, qs, rnd, verdict)
  {
    hide Coefficients, Leaves, Neutral, BatchPoints, SameForms, HasRoot;
    SameCoefficients(m, pk, rs, qs, rnd);
    forall a, s, p ensures Run(m, pk, rs, rnd, a, s, p) <==> Run(m, pk, qs, rnd, a, s, p) {
      SamePoint(a, pk, rs, qs);
    }
    forall i | 0 <= i < |rs| ensures rs[i][..32] == qs[i][..32] {
      SameHalf(rs, qs, i);
    }
  }

  lemma SameHalf(rs: seq<bytes>, qs: seq<bytes>, i: nat)
    requires SameForms(rs, qs) && i < |rs|
    ensures |rs[i]| == |qs[i]| == 64 && rs[i][..32] == qs[i][..32]
  {
    hide LeVal;
    assert SameForm(rs[i], qs[i]);
  }

  /** A form with S too long for the single verifier: its residue and twice L, which fit 32 bytes. */
  function LongForm(rs: bytes): (qs: bytes)
    requires |rs| == 64
    ensures |qs| == 64 && qs[..32] == rs[..32]
  {
    WithS(rs, LeVal(rs[32..]) % L + 2 * L)
  }

  lemma LongFormIs(rs: bytes)
    requires |rs| == 64
    ensures var s := LeVal(rs[32..]) % L + 2 * L; TWO253 <= s < TWO256 && s % L == LeVal(rs[32..]) % L
    ensures SameForm(rs, LongForm(rs))
  {
    hide LeVal, WithS;
    var s := LeVal(rs[32..]) % L;
    BelowThree(s);
    ValueOfS(rs, s + 2 * L);
  }

  lemma BelowThree(s: int)
    requires 0 <= s < L
    ensures TWO253 <= s + 2 * L < TWO256 && (s + 2 * L) % L == s
  {}

  /** The long form of an accepted signature is rejected by the single verifier, though nothing remains of it. */
  lemma LongFormBalances(m: bytes, pk: bytes, rs: bytes, a: Point, n: Point)
    requires CurveFacts() && BaseOrder() && Accepts(m, pk, rs) && DecodesNegative(pk, a) && DecodesNegative(rs[..32], n)
    ensures !Accepts(m, pk, LongForm(rs)) && Residual(m, pk, LongForm(rs), a, n) == NEUTRAL
  {
    hide CurveFacts, BaseOrder, OfOrderL, Check, Mult, Plus, LeVal, Encodes, DecodesNegative, OnCurve, Minus, LongForm;
    var qs := LongForm(rs);
    LongFormRejected(m, pk, rs);
    LongFormIs(rs);
    AcceptedBalances(m, pk, rs, a, n);
    BaseOnCurve();
    OrderOfBase();
    MultModL(LeVal(rs[32..]), BASE);
    MultModL(LeVal(qs[32..]), BASE);
  }

  lemma LongFormRejected(m: bytes, pk: bytes, rs: bytes)
    requires Accepts(m, pk, rs)
    ensures !Accepts(m, pk, LongForm(rs))
  {
    hide Check, Encodes, DecodesNegative, LeVal, WithS;
    LongFormIs(rs);
    AcceptedForms(m, pk, rs, LeVal(rs[32..]) % L + 2 * L);
  }

  /** A good batch with one signature in its long form still passes, and so reports valid what the single verifier rejects. */
  lemma LongFormPasses(m: seq<bytes>, pk: seq<bytes>, rs: seq<bytes>, qs: seq<bytes>, rnd: seq<bytes>, j: nat, verdict: Verdict)
    requires CurveFacts() && BaseOrder() && PrimeOrder() && Batch(m, pk, rs, rnd) && |m| >= 2 && Good(m, pk, rs, rnd)
    requires j < |m| && qs == rs[j := LongForm(rs[j])] && Batch(m, pk, qs, rnd) && Explains(m, pk, qs, rnd, verdict)
    ensures verdict.Passed? && !Accepts(m[j], pk[j], qs[j])
  {
    hide CurveFacts, BaseOrder, PrimeOrder, Accepts, KeysInSubgroup, AllTakePart, Coefficients, Explains, LongForm, SameForm;
    LongFormIs(rs[j]);
    forall i | 0 <= i < |rs| ensures SameForm(rs[i], qs[i]) {
      Itself(rs[i]);
    }
    SameVerdict(m, pk, rs, qs, rnd, verdict);
    GoodPasses(m, pk, rs, rnd, verdict);
    LongFormRejected(m[j], pk[j], rs[j]);
  }

  lemma Itself(rs: bytes)
    requires |rs| == 64
    ensures SameForm(rs, rs)
  {}

  // ---- the random values ----

  /** Another random value for signature `j` changes the sum of the residuals by a multiple of what remains of it. */
  lemma {:induction false} ErrorsChange(m: seq<bytes>, pk: seq<bytes>, rs: seq<bytes>, rnd: seq<bytes>, qnd: seq<bytes>,
                                        a: seq<Point>, j: nat, k: nat)
    requires CurveFacts() && BaseOrder() && Batch(m, pk, rs, rnd) && Batch(m, pk, rs, qnd) && BatchPoints(a, pk, rs)
    requires k <= |m| && j < |m| && qnd == rnd[j := qnd[j]]
    ensures OnCurve(Errors(m, pk, rs, rnd, a, k))
    ensures Errors(m, pk, rs, qnd, a, k)
         == if j < k then Plus(Errors(m, pk, rs, rnd, a, k),
                               Mult(Random(qnd, j) - Random(rnd, j), Remains(m, pk, rs, rnd, a, j)))
            else Errors(m, pk, rs, rnd, a, k)
    decreases k
  {
    hide CurveFacts, BaseOrder, Mult, Plus, OnCurve, Remains, BatchPoints, Coefficients, Lost, LeVal;
    PointsLength(a, pk, rs);
    NeutralOnCurve();
    if k > 0 {
      var i := k - 1;
      var x, e := Errors(m, pk, rs, rnd, a, i), Remains(m, pk, rs, rnd, a, i);
      ErrorsChange(m, pk, rs, rnd, qnd, a, j, i);
      OneSignature(m, pk, rs, rnd, a, i);
      SameRemains(m, pk, rs, rnd, qnd, a, i);
      MultOnCurve(Random(rnd, i), e);
      AlwaysAddable(x, Mult(Random(rnd, i), e));
      if j == i {
        MultOnCurve(Random(qnd, i) - Random(rnd, i), e);
        MultAdd(Random(rnd, i), Random(qnd, i) - Random(rnd, i), e);
        PlusAssoc(x, Mult(Random(rnd, i), e), Mult(Random(qnd, i) - Random(rnd, i), e));
      } else if j < i {
        OneSignature(m, pk, rs, rnd, a, j);
        var d := Mult(Random(qnd, j) - Random(rnd, j), Remains(m, pk, rs, rnd, a, j));
        MultOnCurve(Random(qnd, j) - Random(rnd, j), Remains(m, pk, rs, rnd, a, j));
        PlusAssoc(x, d, Mult(Random(rnd, i), e));
        PlusAssoc(d, Mult(Random(rnd, i), e), d);
        PlusAssoc(x, Mult(Random(rnd, i), e), d);
      }
    }
  }

  lemma SameRemains(m: seq<bytes>, pk: seq<bytes>, rs: seq<bytes>, rnd: seq<bytes>, qnd: seq<bytes>, a: seq<Point>, i: nat)
    requires Batch(m, pk, rs, rnd) && Batch(m, pk, rs, qnd) && |a| == 2 * |m| + 1 && i < |m|
    ensures Remains(m, pk, rs, qnd, a, i) == Remains(m, pk, rs, rnd, a, i)
  {
    hide Residual;
  }

  /** Of the 2^128 random values for a signature that does not balance, at most one lets the batch pass. */
  lemma OneRandomValue(m: seq<bytes>, pk: seq<bytes>, rs: seq<bytes>, rnd: seq<bytes>, qnd: seq<bytes>, a: seq<Point>, j: nat)
    requires CurveFacts() && BaseOrder() && PrimeOrder() && Batch(m, pk, rs, rnd) && Batch(m, pk, rs, qnd) && |m| >= 2
    requires BatchPoints(a, pk, rs) && AllDecode(pk, rs) && Annihilates(L, a, |a|)
    requires AllTakePart(Coefficients(m, pk, rs, rnd), 2 * |m| + 1) && Explains(m, pk, rs, rnd, Passed)
    requires AllTakePart(Coefficients(m, pk, rs, qnd), 2 * |m| + 1) && Explains(m, pk, rs, qnd, Passed)
    requires j < |m| && qnd == rnd[j := qnd[j]] && Remains(m, pk, rs, rnd, a, j) != NEUTRAL
    ensures qnd == rnd
  {
    hide CurveFacts, BaseOrder, PrimeOrder, Mult, Plus, OnCurve, AllDecode, AllTakePart, Explains, Coefficients, Errors,
         Remains, Annihilates, Random, DecodesNegative, LeVal;
    var d: int, e := Random(qnd, j) - Random(rnd, j), Remains(m, pk, rs, rnd, a, j);
    PassedIffCancelled(m, pk, rs, rnd, a, Passed);
    PassedIffCancelled(m, pk, rs, qnd, a, Passed);
    ErrorsChange(m, pk, rs, rnd, qnd, a, j, |m|);
    RemainsOrder(m, pk, rs, rnd, a, j);
    MultOnCurve(d, e);
    NeutralOnCurve();
    PlusAssoc(NEUTRAL, Mult(d, e), NEUTRAL);
    PlusNeutral(Mult(d, e));
    ShortRandom(rnd, j);
    ShortRandom(qnd, j);
    DifferenceVanishes(d, e);
    LeValInjective(rnd[j], qnd[j]);
  }

  lemma DifferenceVanishes(d: int, e: Point)
    requires CurveFacts() && PrimeOrder() && OnCurve(e) && Mult(L, e) == NEUTRAL && e != NEUTRAL && Mult(d, e) == NEUTRAL
    requires -TWO128 < d < TWO128
    ensures d == 0
  {
    hide CurveFacts, PrimeOrder, OnCurve, Mult, Minus;
    if d > 0 {
      OnlyNeutral(d, e);
    } else if d < 0 {
      MultNeg(-d, e);
      MultOnCurve(-d, e);
      MinusMinus(Mult(-d, e));
      MinusNeutral();
      OnlyNeutral(-d, e);
    }
  }

  lemma MinusNeutral()
    requires CurveFacts()
    ensures Minus(NEUTRAL) == NEUTRAL
  {
    hide *;
    NeutralOnCurve();
    MultZeroOne(NEUTRAL);
    MultNeg(1, NEUTRAL);
    NeutralMultiple(-1);
  }

  // ---- keys outside the subgroup ----

  /** With coprime coefficients that all take part, the batch passes exactly when its weighted sum is neutral, on any points. */
  lemma CoprimeDecides(m: seq<bytes>, pk: seq<bytes>, rs: seq<bytes>, rnd: seq<bytes>, a: seq<Point>, verdict: Verdict)
    requires CurveFacts() && Batch(m, pk, rs, rnd) && BatchPoints(a, pk, rs) && AllDecode(pk, rs)
    requires AllTakePart(Coefficients(m, pk, rs, rnd), 2 * |m| + 1) && Coprime(Coefficients(m, pk, rs, rnd), 2 * |m| + 1)
    requires Explains(m, pk, rs, rnd, verdict)
    ensures verdict.Passed? <==> Total(Coefficients(m, pk, rs, rnd), a, 0, 2 * |m| + 1) == NEUTRAL
  {
    hide CurveFacts, BatchPoints, AllDecode, AllTakePart, Coprime, Total, Coefficients, Leaves, Factor, Mult;
    PointsLength(a, pk, rs);
    var v := Coefficients(m, pk, rs, rnd);
    forall c, s, p | Run(m, pk, rs, rnd, c, s, p) ensures Neutral(s, p) <==> Total(v, a, 0, |v|) == NEUTRAL {
      SamePoints(a, c, pk, rs);
      CoprimeLeavesSum(v, a, |v|, s, p);
    }
  }

  /** So a batch of accepted signatures passes exactly when nothing but the neutral point is lost to the reductions. */
  lemma CoprimeAccepted(m: seq<bytes>, pk: seq<bytes>, rs: seq<bytes>, rnd: seq<bytes>, a: seq<Point>, verdict: Verdict)
    requires CurveFacts() && BaseOrder() && Batch(m, pk, rs, rnd) && BatchPoints(a, pk, rs) && AllAccepted(m, pk, rs)
    requires AllTakePart(Coefficients(m, pk, rs, rnd), 2 * |m| + 1) && Coprime(Coefficients(m, pk, rs, rnd), 2 * |m| + 1)
    requires Explains(m, pk, rs, rnd, verdict)
    ensures |a| == 2 * |m| + 1 && (verdict.Passed? <==> Torsion(m, pk, rs, rnd, a, |m|) == NEUTRAL)
  {
    hide CurveFacts, BaseOrder, BatchPoints, AllDecode, AllAccepted, AllTakePart, Coprime, Total, Coefficients, Explains,
         Torsion, Minus;
    PointsLength(a, pk, rs);
    AcceptedDecode(m, pk, rs);
    CoprimeDecides(m, pk, rs, rnd, a, verdict);
    AcceptedSum(m, pk, rs, rnd, a);
  }

  /** The point of order two. */
  const ORDER_TWO := Point(0, P - 1)

  lemma OrderTwoOnCurve()
    ensures OnCurve(ORDER_TWO)
  {
    hide Cong, Eqn;
    EqnIs(0, P - 1);
    assert D * ((0 * (P - 1)) * (0 * (P - 1))) == 0;
    CongByMultiple((P - 1) * (P - 1) - 0 * 0, 1 + 0, P - 2);
  }

  lemma TwiceOrderTwo()
    ensures Plus(ORDER_TWO, ORDER_TWO) == NEUTRAL
  {
    hide Cong, Unit, Cross, SumX, SumY, Plus;
    LawIs(ORDER_TWO, ORDER_TWO);
    assert D * ((0 * (P - 1)) * (0 * (P - 1))) == 0;
    UnitOne();
    CongRefl(0);
    CongByMultiple((P - 1) * (P - 1) + 0 * 0, 1, P - 2);
    CongSym((P - 1) * (P - 1) + 0 * 0, 1);
    PlusUnique(ORDER_TWO, ORDER_TWO, NEUTRAL);
  }

  /** Its multiples alternate, so those by L q are neutral exactly for even q. */
  lemma MultiplesOfOrderTwo(q: int)
    requires CurveFacts()
    ensures Mult(q, ORDER_TWO) == (if q % 2 == 0 then NEUTRAL else ORDER_TWO) && Mult(L * q, ORDER_TWO) == Mult(q, ORDER_TWO)
  {
    hide *;
    OrderTwoOnCurve();
    TwiceOrderTwo();
    MultZeroOne(ORDER_TWO);
    MultAdd(1, 1, ORDER_TWO);
    MultMod(2, q, ORDER_TWO);
    MultMod(2, L * q, ORDER_TWO);
    OddL(q);
  }

  lemma OddL(q: int)
    ensures L * q % 2 == q % 2
  {}

  /** The key that encodes it. */
  lemma KeyOfOrderTwo()
    ensures DecodesNegative(LeBytes(P - 1, 32), ORDER_TWO)
  {
    hide OnCurve, LeVal, LeBytes, Pow256;
    OrderTwoOnCurve();
    Pow256Of32();
    LeBytesValue(P - 1, 32);
  }

  /** Every key lies in the subgroup of order L or is the point of order two. */
  ghost predicate SubgroupOrTwo(a: seq<Point>, b: nat) {
    b < |a| && forall i :: 1 <= i <= b ==> OfOrderL(a[i]) || a[i] == ORDER_TWO
  }

  /** The quotients that the reductions drop from the first `k` signatures, over the keys of order two. */
  ghost function LostQuotients(m: seq<bytes>, pk: seq<bytes>, rs: seq<bytes>, rnd: seq<bytes>, a: seq<Point>, k: nat): int
    requires Batch(m, pk, rs, rnd) && k <= |m| < |a|
  {
    if k == 0 then 0
    else
      LostQuotients(m, pk, rs, rnd, a, k - 1) + if a[k] == ORDER_TWO then LostQuotient(m, pk, rs, rnd, k - 1) else 0
  }

  ghost function LostQuotient(m: seq<bytes>, pk: seq<bytes>, rs: seq<bytes>, rnd: seq<bytes>, i: nat): int
    requires Batch(m, pk, rs, rnd) && i < |m|
  {
    Product(Challenge(rs[i], pk[i], m[i]), Random(rnd, i)) / L
  }

  lemma {:induction false} TorsionOfTwo(m: seq<bytes>, pk: seq<bytes>, rs: seq<bytes>, rnd: seq<bytes>, a: seq<Point>, k: nat)
    requires CurveFacts() && Batch(m, pk, rs, rnd) && k <= |m| && SubgroupOrTwo(a, |m|)
    ensures Torsion(m, pk, rs, rnd, a, k) == Mult(LostQuotients(m, pk, rs, rnd, a, k), ORDER_TWO)
  {
    hide CurveFacts, Plus, Mult, OfOrderL, Lost, LostQuotient, OnCurve;
    OrderTwoOnCurve();
    MultZeroOne(ORDER_TWO);
    if k > 0 {
      var q := LostQuotient(m, pk, rs, rnd, k - 1);
      var t := LostQuotients(m, pk, rs, rnd, a, k - 1);
      TorsionOfTwo(m, pk, rs, rnd, a, k - 1);
      MultOnCurve(t, ORDER_TWO);
      PlusNeutral(Mult(t, ORDER_TWO));
      if a[k] == ORDER_TWO {
        LostIs(m, pk, rs, rnd, k - 1);
        MultiplesOfOrderTwo(q);
        MultAdd(t, q, ORDER_TWO);
      } else {
        NothingLost(m, pk, rs, rnd, k - 1, a[k]);
      }
    }
  }

  lemma LostIs(m: seq<bytes>, pk: seq<bytes>, rs: seq<bytes>, rnd: seq<bytes>, i: nat)
    requires Batch(m, pk, rs, rnd) && i < |m|
    ensures Lost(m, pk, rs, rnd, i) == L * LostQuotient(m, pk, rs, rnd, i)
  {
    hide Product, Challenge, Random;
  }

  /** Such a batch of accepted signatures passes exactly when the quotients dropped for keys of order two have an even sum. */
  lemma OrderTwoDecides(m: seq<bytes>, pk: seq<bytes>, rs: seq<bytes>, rnd: seq<bytes>, a: seq<Point>, verdict: Verdict)
    requires CurveFacts() && BaseOrder() && Batch(m, pk, rs, rnd) && BatchPoints(a, pk, rs) && AllAccepted(m, pk, rs)
    requires AllTakePart(Coefficients(m, pk, rs, rnd), 2 * |m| + 1) && Coprime(Coefficients(m, pk, rs, rnd), 2 * |m| + 1)
    requires SubgroupOrTwo(a, |m|) && Explains(m, pk, rs, rnd, verdict)
    ensures verdict.Passed? <==> LostQuotients(m, pk, rs, rnd, a, |m|) % 2 == 0
  {
    hide CurveFacts, BaseOrder, BatchPoints, AllAccepted, AllTakePart, Coprime, Coefficients, Explains, Torsion, LostQuotients,
         SubgroupOrTwo, Mult;
    CoprimeAccepted(m, pk, rs, rnd, a, verdict);
    TorsionOfTwo(m, pk, rs, rnd, a, |m|);
    MultiplesOfOrderTwo(LostQuotients(m, pk, rs, rnd, a, |m|));
  }
}
