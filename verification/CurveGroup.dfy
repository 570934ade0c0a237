/** Multiples of curve points, and the group facts the scalar multiplications rest on. */
module CurveGroup {
  import opened PrimeField
  import opened AbelianGroup
  import opened Edwards
  import opened GroupElements

  /** `n` times the point `a`. */
  ghost function Mult(n: int, a: Point): Point {
    Times(Curve(), n, a)
  }

  lemma Operations(a: Point, b: Point)
    ensures Curve().mem(a) == OnCurve(a)
    ensures Curve().add(a, b) == Plus(a, b)
    ensures Curve().neg(a) == Minus(a)
    ensures Curve().zero == NEUTRAL
  {
    hide OnCurve, Plus, Minus;
  }

  lemma MultOnCurve(n: int, a: Point)
    requires CurveFacts() && OnCurve(a)
    ensures OnCurve(Mult(n, a))
  {
    hide Curve, OnCurve, CurveFacts, Abelian;
    CurveAbelian();
    Operations(a, a);
    Operations(Mult(n, a), a);
    TimesMem(Curve(), n, a);
  }

  lemma MultAdd(m: int, n: int, a: Point)
    requires CurveFacts() && OnCurve(a)
    ensures Mult(m + n, a) == Plus(Mult(m, a), Mult(n, a))
  {
    hide Curve, OnCurve, Plus, CurveFacts, Abelian;
    CurveAbelian();
    Operations(a, a);
    Operations(Mult(m, a), Mult(n, a));
    TimesAdd(Curve(), m, n, a);
  }

  lemma MultNeg(n: int, a: Point)
    requires CurveFacts() && OnCurve(a)
    ensures Mult(-n, a) == Minus(Mult(n, a))
  {
    hide Curve, OnCurve, Minus, CurveFacts, Abelian;
    CurveAbelian();
    Operations(a, a);
    Operations(Mult(n, a), a);
    TimesNeg(Curve(), n, a);
  }

  lemma MultMul(m: int, n: int, a: Point)
    requires CurveFacts() && OnCurve(a)
    ensures Mult(m * n, a) == Mult(m, Mult(n, a))
  {
    hide Curve, OnCurve, CurveFacts, Abelian;
    CurveAbelian();
    Operations(a, a);
    TimesMul(Curve(), m, n, a);
  }

  lemma MultMod(order: int, n: int, a: Point)
    requires CurveFacts() && OnCurve(a) && order > 0 && Mult(order, a) == NEUTRAL
    ensures Mult(n % order, a) == Mult(n, a)
  {
    hide Curve, OnCurve, CurveFacts, Abelian;
    CurveAbelian();
    Operations(a, a);
    TimesMod(Curve(), order, n, a);
  }

  lemma MultZeroOne(a: Point)
    requires CurveFacts() && OnCurve(a)
    ensures Mult(0, a) == NEUTRAL && Mult(1, a) == a
  {
    hide OnCurve, CurveFacts, Abelian, Plus, Minus;
    CurveAbelian();
    Operations(a, a);
    Operations(NEUTRAL, a);
    Neg(Curve(), a);
    Zero(Curve());
    Add(Curve(), NEUTRAL, a);
    assert Times(Curve(), 1, a) == Curve().add(Times(Curve(), 0, a), a);
  }

  lemma PlusFour(a: Point, b: Point, c: Point, d: Point)
    requires CurveFacts() && OnCurve(a) && OnCurve(b) && OnCurve(c) && OnCurve(d)
    ensures Plus(Plus(a, b), Plus(c, d)) == Plus(Plus(a, c), Plus(b, d))
    ensures OnCurve(Plus(a, b)) && OnCurve(Plus(c, d))
  {
    hide Curve, OnCurve, Plus, CurveFacts, Abelian;
    CurveAbelian();
    Operations(a, b);
    Operations(c, d);
    Operations(a, c);
    Operations(b, d);
    Operations(d, d);
    Operations(Plus(a, b), Plus(c, d));
    Operations(Plus(a, c), Plus(b, d));
    Operations(Plus(c, d), a);
    Regroup(Curve(), a, b, c, d);
    Add(Curve(), a, b);
    Add(Curve(), c, d);
  }

  lemma PlusAssoc(a: Point, b: Point, c: Point)
    requires CurveFacts() && OnCurve(a) && OnCurve(b) && OnCurve(c)
    ensures Plus(Plus(a, b), c) == Plus(a, Plus(b, c)) && OnCurve(Plus(a, b)) && Plus(a, b) == Plus(b, a)
  {
    hide Curve, OnCurve, Plus, CurveFacts, Abelian;
    CurveAbelian();
    Operations(a, b);
    Operations(b, a);
    Operations(b, c);
    Operations(c, c);
    Operations(Plus(a, b), c);
    Operations(a, Plus(b, c));
    Assoc(Curve(), a, b, c);
    Add(Curve(), a, b);
  }

  /** Any two points of the curve can be added. */
  lemma AlwaysAddable(a: Point, b: Point)
    requires CurveFacts() && OnCurve(a) && OnCurve(b)
    ensures Addable(a, b) && OnCurve(Plus(a, b)) && OnCurve(Minus(a))
  {
    hide OnCurve, Plus, Minus, PrimeFacts, NonSquare, Associative, Unit, Cross;
    Complete(a, b);
    PlusOnCurve(a, b);
    MinusOnCurve(a);
  }

  /** One Horner step: doubling a combination and adding the next digits of both multipliers. */
  lemma HornerStep(m: int, n: int, d: int, e: int, a: Point, b: Point)
    requires CurveFacts() && OnCurve(a) && OnCurve(b)
    ensures var h := Plus(Mult(m, a), Mult(n, b));
            Plus(Plus(Plus(h, h), Mult(d, a)), Mult(e, b)) == Plus(Mult(2 * m + d, a), Mult(2 * n + e, b))
  {
    hide *;
    var am, bn, ad, be := Mult(m, a), Mult(n, b), Mult(d, a), Mult(e, b);
    MultOnCurve(m, a);
    MultOnCurve(n, b);
    MultOnCurve(d, a);
    MultOnCurve(e, b);
    var h := Plus(am, bn);
    PlusFour(am, bn, am, bn);
    MultAdd(m, m, a);
    MultAdd(n, n, b);
    assert Plus(h, h) == Plus(Mult(m + m, a), Mult(n + n, b));
    MultOnCurve(m + m, a);
    MultOnCurve(n + n, b);
    AlwaysAddable(h, h);
    PlusAssoc(Plus(h, h), ad, be);
    PlusFour(Mult(m + m, a), Mult(n + n, b), ad, be);
    MultAdd(m + m, d, a);
    MultAdd(n + n, e, b);
    assert m + m + d == 2 * m + d && n + n + e == 2 * n + e;
  }
}
