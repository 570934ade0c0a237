/** Sums of multiples of curve points, and common divisors of their coefficients. */
module WeightedSums {
  import opened Edwards
  import opened AbelianGroup
  import opened CurveGroup

  ghost predicate OnCurveAll(a: seq<Point>, n: nat) {
    n <= |a| && forall i :: 0 <= i < n ==> OnCurve(a[i])
  }

  /** v[m] a[m] + ... + v[n-1] a[n-1]. */
  ghost function Total(v: seq<int>, a: seq<Point>, m: nat, n: nat): Point
    requires m <= n <= |v| && n <= |a|
    decreases n
  {
    if m == n then NEUTRAL else Plus(Total(v, a, m, n - 1), Mult(v[n - 1], a[n - 1]))
  }

  lemma {:induction false} TotalOnCurve(v: seq<int>, a: seq<Point>, m: nat, n: nat)
    requires CurveFacts() && m <= n <= |v| && OnCurveAll(a, n)
    ensures OnCurve(Total(v, a, m, n))
    decreases n
  {
    hide CurveFacts, OnCurve, Plus, Mult;
    if m == n {
      NeutralOnCurve();
    } else {
      TotalOnCurve(v, a, m, n - 1);
      MultOnCurve(v[n - 1], a[n - 1]);
      AlwaysAddable(Total(v, a, m, n - 1), Mult(v[n - 1], a[n - 1]));
    }
  }

  lemma {:induction false} TotalSame(v: seq<int>, a: seq<Point>, w: seq<int>, b: seq<Point>, m: nat, n: nat)
    requires m <= n <= |v| && n <= |a| && n <= |w| && n <= |b|
    requires forall i :: m <= i < n ==> v[i] == w[i] && a[i] == b[i]
    ensures Total(v, a, m, n) == Total(w, b, m, n)
    decreases n
  {
    hide Plus, Mult;
    if m != n {
      TotalSame(v, a, w, b, m, n - 1);
    }
  }

  lemma {:induction false} TotalSplit(v: seq<int>, a: seq<Point>, m: nat, k: nat, n: nat)
    requires CurveFacts() && m <= k <= n <= |v| && OnCurveAll(a, n)
    ensures Total(v, a, m, n) == Plus(Total(v, a, m, k), Total(v, a, k, n))
    decreases n
  {
    hide CurveFacts, OnCurve, Plus, Mult;
    TotalOnCurve(v, a, m, k);
    if k == n {
      PlusNeutral(Total(v, a, m, k));
    } else {
      TotalSplit(v, a, m, k, n - 1);
      TotalOnCurve(v, a, k, n - 1);
      MultOnCurve(v[n - 1], a[n - 1]);
      PlusAssoc(Total(v, a, m, k), Total(v, a, k, n - 1), Mult(v[n - 1], a[n - 1]));
    }
  }

  /** Only term `i` changes, by `d`. */
  ghost predicate Changed(v: seq<int>, a: seq<Point>, w: seq<int>, b: seq<Point>, n: nat, i: nat, d: Point) {
    && n <= |v| == |w| && n <= |a| == |b| && i < n
    && (forall j :: 0 <= j < n && j != i ==> v[j] == w[j] && a[j] == b[j])
    && Mult(w[i], b[i]) == Plus(Mult(v[i], a[i]), d)
  }

  lemma {:induction false} TotalChanged(v: seq<int>, a: seq<Point>, w: seq<int>, b: seq<Point>, n: nat, i: nat, d: Point)
    requires CurveFacts() && OnCurve(d) && Changed(v, a, w, b, n, i, d) && OnCurveAll(a, n)
    ensures Total(w, b, 0, n) == Plus(Total(v, a, 0, n), d)
    decreases n
  {
    hide CurveFacts, OnCurve, Plus, Mult;
    TotalOnCurve(v, a, 0, n - 1);
    MultOnCurve(v[n - 1], a[n - 1]);
    var t, x := Total(v, a, 0, n - 1), Mult(v[n - 1], a[n - 1]);
    if i == n - 1 {
      TotalSame(v, a, w, b, 0, n - 1);
      PlusAssoc(t, x, d);
    } else {
      TotalChanged(v, a, w, b, n - 1, i, d);
      PlusAssoc(t, d, x);
      PlusAssoc(d, x, x);
      PlusAssoc(t, x, d);
    }
  }

  /** One step of the Bos-Carter recursion keeps the sum: v1 A1 + v2 A2 = (v1 - v2) A1 + v2 (A2 + A1). */
  lemma CarterStepTotal(v: seq<int>, a: seq<Point>, m1: nat, m2: nat, n: nat)
    requires CurveFacts() && n <= |v| && OnCurveAll(a, n) && m1 < n && m2 < n && m1 != m2 && v[m2] >= 0
    ensures OnCurve(Plus(a[m2], a[m1]))
    ensures Total(v[m1 := v[m1] - v[m2]], a[m2 := Plus(a[m2], a[m1])], 0, n) == Total(v, a, 0, n)
  {
    hide CurveFacts, OnCurve, Plus, Mult;
    var x1, x2, k := a[m1], a[m2], v[m2];
    var w, b := v[m1 := v[m1] - k], a[m2 := Plus(x2, x1)];
    AlwaysAddable(x2, x1);
    MultOnCurve(-k, x1);
    MultOnCurve(k, x1);
    MultAdd(v[m1], -k, x1);
    TotalChanged(v, a, w, a, n, m1, Mult(-k, x1));
    MultSum(k, x2, x1);
    TotalChanged(w, a, w, b, n, m2, Mult(k, x1));
    TotalOnCurve(v, a, 0, n);
    MultAdd(-k, k, x1);
    MultZeroOne(x1);
    PlusAssoc(Total(v, a, 0, n), Mult(-k, x1), Mult(k, x1));
    PlusNeutral(Total(v, a, 0, n));
  }

  lemma MultSum(k: nat, a: Point, b: Point)
    requires CurveFacts() && OnCurve(a) && OnCurve(b)
    ensures Mult(k, Plus(a, b)) == Plus(Mult(k, a), Mult(k, b))
  {
    hide Curve, OnCurve, Plus, CurveFacts, Abelian;
    CurveAbelian();
    Operations(a, b);
    Operations(b, a);
    Operations(Mult(k, a), Mult(k, b));
    TimesDistribute(Curve(), k, a, b);
  }

  /** `k` times each of the first `n` points is neutral. */
  ghost predicate Annihilates(k: nat, a: seq<Point>, n: nat) {
    n <= |a| && forall i :: 0 <= i < n ==> Mult(k, a[i]) == NEUTRAL
  }

  /** What annihilates all points annihilates the sums that replace them. */
  lemma AnnihilatesSum(k: nat, a: seq<Point>, n: nat, m1: nat, m2: nat)
    requires CurveFacts() && OnCurveAll(a, n) && m1 < n && m2 < n && Annihilates(k, a, n)
    ensures Annihilates(k, a[m2 := Plus(a[m2], a[m1])], n)
  {
    hide CurveFacts, OnCurve, Plus, Mult;
    MultSum(k, a[m2], a[m1]);
    NeutralOnCurve();
    PlusNeutral(NEUTRAL);
  }

  /** A sum with one non-zero coefficient. */
  lemma {:induction false} OneTerm(v: seq<int>, a: seq<Point>, n: nat, m: nat)
    requires CurveFacts() && n <= |v| && OnCurveAll(a, n) && m < |v| && m < |a|
    requires forall i :: 0 <= i < n && i != m ==> v[i] == 0
    ensures Total(v, a, 0, n) == if m < n then Mult(v[m], a[m]) else NEUTRAL
    decreases n
  {
    hide CurveFacts, OnCurve, Plus, Mult;
    if n > 0 {
      OneTerm(v, a, n - 1, m);
      NeutralOnCurve();
      MultZeroOne(a[n - 1]);
      PlusNeutral(NEUTRAL);
      if n - 1 == m {
        MultOnCurve(v[m], a[m]);
        PlusAssoc(NEUTRAL, Mult(v[m], a[m]), NEUTRAL);
        PlusNeutral(Mult(v[m], a[m]));
      } else if m < n {
        MultOnCurve(v[m], a[m]);
        PlusNeutral(Mult(v[m], a[m]));
      }
    }
  }

  // ---- coefficients ----

  ghost function Sum(v: seq<int>, n: nat): int
    requires n <= |v|
  {
    if n == 0 then 0 else Sum(v, n - 1) + v[n - 1]
  }

  lemma {:induction false} SumUpdate(v: seq<int>, n: nat, i: nat, x: int)
    requires n <= |v| && i < |v|
    ensures Sum(v[i := x], n) == Sum(v, n) + if i < n then x - v[i] else 0
  {
    if n > 0 {
      SumUpdate(v, n - 1, i, x);
    }
  }

  lemma {:induction false} SumNonNegative(v: seq<int>, n: nat)
    requires n <= |v| && forall i :: 0 <= i < n ==> v[i] >= 0
    ensures Sum(v, n) >= 0
  {
    if n > 0 {
      SumNonNegative(v, n - 1);
    }
  }

  ghost predicate CommonDivisor(g: int, v: seq<int>, n: nat) {
    n <= |v| && g > 0 && forall i :: 0 <= i < n ==> v[i] % g == 0
  }

  lemma ModDifference(a: int, b: int, g: int)
    requires g > 0 && b % g == 0
    ensures (a - b) % g == 0 <==> a % g == 0
  {
    var k := b / g;
    assert b == g * k;
    if a % g == 0 {
      var j := a / g;
      assert a - b == g * (j - k) by { assert a == g * j; }
      MultipleMod(j - k, g);
    }
    if (a - b) % g == 0 {
      var j := (a - b) / g;
      assert a == g * (j + k) by { assert a - b == g * j; }
      MultipleMod(j + k, g);
    }
  }

  lemma MultipleMod(k: int, g: int)
    requires g > 0
    ensures (g * k) % g == 0
  {
    var q, r := (g * k) / g, (g * k) % g;
    assert r == g * (k - q);
    SmallMultiple(g, k - q);
  }

  lemma SmallMultiple(g: int, d: int)
    requires 0 <= g * d < g
    ensures d == 0
  {}

  lemma CarterStepDivisors(g: int, v: seq<int>, m1: nat, m2: nat, n: nat)
    requires n <= |v| && m1 < n && m2 < n && m1 != m2
    ensures CommonDivisor(g, v[m1 := v[m1] - v[m2]], n) <==> CommonDivisor(g, v, n)
  {
    var w := v[m1 := v[m1] - v[m2]];
    if g > 0 && v[m2] % g == 0 {
      ModDifference(v[m1], v[m2], g);
    }
    if CommonDivisor(g, w, n) {
      assert w[m2] % g == 0 && w[m1] % g == 0;
      forall i | 0 <= i < n ensures v[i] % g == 0 {
        assert w[i] % g == 0;
      }
    }
  }
}
