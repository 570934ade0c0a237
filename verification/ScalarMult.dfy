/** Scalar multiplication (ed25519-donna-impl-base.h). */
module ScalarMult {
  import opened Words
  import opened PrimeField
  import opened Curve25519
  import opened Edwards
  import opened EdwardsFormulas
  import opened GroupElements
  import opened CurveGroup
  import opened ScalarModM
  import opened Recoding

  /** The cached odd multiples of `b`: entry i stands for (2 i + 1) b. */
  ghost predicate OddMultiples(table: seq<Pniels>, b: Point) {
    forall i :: 0 <= i < |table| ==> Cached(table[i], Mult(2 * i + 1, b))
  }

  /** What `ge25519_niels_sliding_multiples` is assumed to hold: (2 i + 1) times the base point at entry i. */
  ghost predicate SlidingTable(table: seq<Niels>) {
    |table| == 32 && forall i :: 0 <= i < 32 ==> CachedAffine(table[i], Mult(2 * i + 1, BASE))
  }

  const NEUTRAL_GE := Ge(ZERO, ONE, ONE, ZERO)

  lemma NeutralForms()
    ensures Projects(0, 1, 1, NEUTRAL) && Extends(0, 1, NEUTRAL)
  {
    hide Cong, Unit;
    UnitOne();
    CongRefl(0);
    CongRefl(1);
  }

  lemma NeutralGe()
    ensures Full(NEUTRAL_GE, NEUTRAL)
  {
    hide Val, Poly, OnCurve, Projects, Extends;
    ValZero();
    NeutralOnCurve();
    NeutralForms();
  }

  /** A digit chooses the cached multiple of its magnitude, negated for a negative digit. */
  lemma DigitPoint(d: int, b: Point)
    requires CurveFacts() && OnCurve(b) && d % 2 == 1
    ensures var k := (if d < 0 then -d else d) / 2;
            Signed(Mult(2 * k + 1, b), if d < 0 then 1 else 0) == Mult(d, b)
  {
    hide Mult, CurveFacts, OnCurve, Minus;
    if d < 0 {
      MultNeg(-d, b);
      assert 2 * (-d / 2) + 1 == -d;
    } else {
      assert 2 * (d / 2) + 1 == d;
    }
  }

  function Abs(d: int): nat {
    if d < 0 then -d else d
  }

  /** `(unsigned char) d >> 7`. */
  function SignBit(d: int): u8 {
    if d < 0 then 1 else 0
  }

  /** pre1: the first eight odd multiples of p1. */
  method BuildTable(p1: Ge, ghost a: Point) returns (pre: seq<Pniels>)
    requires CurveFacts() && Full(p1, a)
    ensures |pre| == 8 && OddMultiples(pre, a)
  {
    hide Full, Cached, Plus, Addable, Mult, CurveFacts, OnCurve, Partial;
    PartialOfFull(p1, a);
    FullOnCurve(p1, a);
    AlwaysAddable(a, a);
    var d1 := Double(p1, a);
    var p := FullToPniels(p1, a);
    pre := [p];
    MultZeroOne(a);
    MultAdd(1, 1, a);
    for i := 0 to 7
      invariant |pre| == i + 1 && OddMultiples(pre, a)
    {
      ghost var b := Mult(2 * i + 1, a);
      MultOnCurve(2 * i + 1, a);
      MultOnCurve(2, a);
      AlwaysAddable(Mult(2, a), b);
      p := Pnielsadd(d1, pre[i], Mult(2, a), b);
      MultAdd(2, 2 * i + 1, a);
      assert 2 + (2 * i + 1) == 2 * (i + 1) + 1;
      pre := pre + [p];
    }
  }

  lemma FullOnCurve(p: Ge, a: Point)
    requires Partial(p, a)
    ensures OnCurve(a)
  {}

  lemma PartialOfFull(p: Ge, a: Point)
    requires Full(p, a)
    ensures Partial(p, a)
  {}

  lemma DigitRange(d: seq<int>, w: nat, i: nat, value: int)
    requires SlidingForm(d, w, value) && i < 256 && d[i] != 0
    ensures d[i] % 2 == 1 && (w == 5 ==> Abs(d[i]) / 2 < 8) && (w == 7 ==> Abs(d[i]) / 2 < 32)
  {
    assert WindowDigit(d[i], w);
    assert Pow2(4) == 16 && Pow2(6) == 64;
  }

  lemma DigitsFrom(d: seq<int>, i: nat)
    requires i < |d|
    ensures Digits(d[i..]) == d[i] + 2 * Digits(d[i + 1..])
  {
    assert d[i..][1..] == d[i + 1..];
  }

  /** One round of the main loop: double, then add the two digits at position i. */
  method Round(r0: Ge, pre1: seq<Pniels>, table: seq<Niels>, d: int, e: int, ghost h: Point, ghost a: Point)
    returns (r: Ge)
    requires CurveFacts() && OnCurve(a) && Partial(r0, h)
    requires |pre1| == 8 && OddMultiples(pre1, a) && SlidingTable(table)
    requires d != 0 ==> d % 2 == 1 && Abs(d) / 2 < 8
    requires e != 0 ==> e % 2 == 1 && Abs(e) / 2 < 32
    ensures Partial(r, Plus(Plus(Plus(h, h), Mult(d, a)), Mult(e, BASE)))
  {
    hide OnCurve, Full, Partial, Cached, CachedAffine, Completed, Plus, Addable, Mult, CurveFacts, Minus;
    FullOnCurve(r0, h);
    BaseOnCurve();
    AlwaysAddable(h, h);
    var t := DoubleP1p1(r0, h);
    ghost var s := Plus(h, h);
    r := r0;
    MultZeroOne(a);
    MultZeroOne(BASE);
    MultOnCurve(d, a);
    PlusNeutral(s);
    if d != 0 {
      r := P1p1ToFull(t, s);
      ghost var k := Abs(d) / 2;
      DigitPoint(d, a);
      AlwaysAddable(s, Mult(d, a));
      t := PnielsaddP1p1(r, pre1[Abs(d) / 2], SignBit(d), s, Mult(2 * k + 1, a));
    }
    s := Plus(s, Mult(d, a));
    AlwaysAddable(Plus(h, h), Mult(d, a));
    PlusNeutral(s);
    MultOnCurve(e, BASE);
    if e != 0 {
      r := P1p1ToFull(t, s);
      ghost var k := Abs(e) / 2;
      DigitPoint(e, BASE);
      AlwaysAddable(s, Mult(e, BASE));
      t := Nielsadd2P1p1(r, table[Abs(e) / 2], SignBit(e), s, Mult(2 * k + 1, BASE));
    }
    s := Plus(s, Mult(e, BASE));
    r := P1p1ToPartial(t, r.t, s);
  }

  /** m a + n B. */
  ghost function Combination(m: int, n: int, a: Point): Point {
    Plus(Mult(m, a), Mult(n, BASE))
  }

  lemma CombinationStep(m: int, n: int, d: int, e: int, a: Point)
    requires CurveFacts() && OnCurve(a)
    ensures var h := Combination(m, n, a);
            Plus(Plus(Plus(h, h), Mult(d, a)), Mult(e, BASE)) == Combination(2 * m + d, 2 * n + e, a)
  {
    hide Plus, Mult, CurveFacts, OnCurve;
    BaseOnCurve();
    HornerStep(m, n, d, e, a, BASE);
  }

  lemma CombinationZero(a: Point)
    requires CurveFacts() && OnCurve(a)
    ensures Combination(0, 0, a) == NEUTRAL
  {
    hide Plus, Mult, CurveFacts, OnCurve;
    BaseOnCurve();
    MultZeroOne(a);
    MultZeroOne(BASE);
    NeutralOnCurve();
    PlusNeutral(NEUTRAL);
  }

  /** The highest position where either digit is not zero, or -1. */
  method HighestDigit(slide1: seq<int>, slide2: seq<int>) returns (i: int)
    requires |slide1| == |slide2| == 256
    ensures -1 <= i <= 255 && Digits(slide1[i + 1..]) == 0 && Digits(slide2[i + 1..]) == 0
  {
    hide Digits;
    NoMoreDigits(slide1, slide2);
    i := 255;
    while i >= 0 && slide1[i] == 0 && slide2[i] == 0
      invariant -1 <= i <= 255
      invariant Digits(slide1[i + 1..]) == 0 && Digits(slide2[i + 1..]) == 0
    {
      DigitsFrom(slide1, i);
      DigitsFrom(slide2, i);
      i := i - 1;
    }
  }

  /** The digit loop: from the highest non-zero position down, one `Round` per position. */
  method Evaluate(slide1: seq<int>, slide2: seq<int>, pre1: seq<Pniels>, table: seq<Niels>,
                  ghost v1: int, ghost v2: int, ghost a: Point) returns (r: Ge)
    requires CurveFacts() && OnCurve(a)
    requires SlidingForm(slide1, 5, v1) && SlidingForm(slide2, 7, v2) && |slide1| == |slide2| == 256
    requires |pre1| == 8 && OddMultiples(pre1, a) && SlidingTable(table)
    ensures Partial(r, Combination(v1, v2, a))
  {
    hide OnCurve, Full, Partial, SlidingTable, OddMultiples, Plus, Mult, CurveFacts, Digits, SlidingForm, Combination, Abs;
    r := NEUTRAL_GE;
    NeutralGe();
    PartialOfFull(r, NEUTRAL);
    CombinationZero(a);
    var i := HighestDigit(slide1, slide2);
    ghost var m, n := 0, 0;
    while i >= 0
      invariant -1 <= i <= 255
      invariant m == Digits(slide1[i + 1..]) && n == Digits(slide2[i + 1..])
      invariant Partial(r, Combination(m, n, a))
    {
      var d, e := slide1[i], slide2[i];
      DigitsFrom(slide1, i);
      DigitsFrom(slide2, i);
      CombinationStep(m, n, d, e, a);
      if d != 0 {
        DigitRange(slide1, 5, i, v1);
      }
      if e != 0 {
        DigitRange(slide2, 7, i, v2);
      }
      r := Round(r, pre1, table, d, e, Combination(m, n, a), a);
      m, n := 2 * m + d, 2 * n + e;
      i := i - 1;
    }
    assert i == -1;
    AllDigits(slide1, 5, v1, i + 1, m);
    AllDigits(slide2, 7, v2, i + 1, n);
  }

  /** `ge25519_double_scalarmult_vartime`: [s1] p1 + [s2] B. */
  method DoubleScalarmult(p1: Ge, s1: Scalar, s2: Scalar, table: seq<Niels>, ghost a: Point) returns (r: Ge)
    requires CurveFacts() && Full(p1, a) && SlidingTable(table)
    requires Limbs(s1, 0x100000000) && SVal(s1) < Pow2(255) && Limbs(s2, 0x100000000) && SVal(s2) < Pow2(255)
    ensures Partial(r, Plus(Mult(SVal(s1), a), Mult(SVal(s2), BASE)))
  {
    hide OnCurve, Full, Partial, SlidingTable, OddMultiples, Plus, Mult, CurveFacts, SVal, Pow2, SlidingForm;
    PartialOfFull(p1, a);
    FullOnCurve(p1, a);
    var slide1 := SlidingWindow(s1, 5);
    var slide2 := SlidingWindow(s2, 7);
    var pre1 := BuildTable(p1, a);
    r := Evaluate(slide1[..], slide2[..], pre1, table, SVal(s1), SVal(s2), a);
  }

  lemma AllDigits(d: seq<int>, w: nat, value: int, i: int, m: int)
    requires SlidingForm(d, w, value) && i == 0 && m == Digits(d[i..])
    ensures m == value
  {
    assert d[0..] == d;
  }

  lemma NoMoreDigits(d: seq<int>, e: seq<int>)
    requires |d| == 256 && |e| == 256
    ensures Digits(d[256..]) == 0 && Digits(e[256..]) == 0
  {}
}
