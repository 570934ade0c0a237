/** The last step of multi-scalar multiplication, and the whole of it (ed25519-donna-batchverify.h). */
module MultiScalarFinal {
  import opened Words
  import opened Options
  import opened Curve25519
  import opened Edwards
  import opened GroupElements
  import opened CurveGroup
  import opened ScalarModM
  import opened ScalarBatch
  import opened ScalarMult
  import opened BatchHeap
  import opened WeightedSums
  import opened MultiScalar

  /** The least power of two above `m`. */
  function PowerAbove(m: nat): nat {
    if m == 0 then 1 else 2 * PowerAbove(m / 2)
  }

  lemma {:induction false} PowerAboveIs(m: nat, k: nat)
    requires Pow2(k) <= 2 * m && m < Pow2(k) && m > 0
    ensures PowerAbove(m) == Pow2(k)
    decreases m
  {
    if m == 1 {
      assert PowerAbove(1) == 2 * PowerAbove(0);
      OnlyOne(k);
    } else {
      PowerOver(k);
      Quarter(m, Pow2(k - 2));
      PowerAboveIs(m / 2, k - 1);
    }
  }

  lemma OnlyOne(k: nat)
    requires 1 < Pow2(k) <= 2
    ensures Pow2(k) == 2
  {}

  lemma PowerOver(k: nat)
    requires Pow2(k) > 2
    ensures k >= 2 && Pow2(k) == 2 * Pow2(k - 1) && Pow2(k - 1) == 2 * Pow2(k - 2)
  {}

  lemma Quarter(m: nat, x: nat)
    requires 2 * x <= m < 4 * x
    ensures 2 * x <= 2 * (m / 2) && 0 < m / 2 < 2 * x
  {}

  const LOW4: int := 0x100000000000000000000000000000000000000000000000000000000

  /** The multiple the code takes for a scalar `s`: its doubling loop starts on the leading bit it has already counted. */
  function Factor(s: nat): nat {
    if s <= 1 then s else s % LOW4 + PowerAbove(s % LOW4)
  }

  lemma {:induction false} PowerAboveBounds(m: nat)
    ensures m < PowerAbove(m) && PowerAbove(m) >= 1 && (m > 0 ==> PowerAbove(m) <= 2 * m) && (m == 0 ==> PowerAbove(m) == 1)
  {
    if m > 0 {
      PowerAboveBounds(m / 2);
      if m == 1 {
        assert PowerAbove(0) == 1;
      }
    }
  }

  lemma {:induction false} PowerAboveLeast(m: nat, k: nat)
    requires 0 < m < Pow2(k)
    ensures PowerAbove(m) <= Pow2(k) && (PowerAbove(m) == Pow2(k) <==> Pow2(k) <= 2 * m)
  {
    if Pow2(k) <= 2 * m {
      PowerAboveIs(m, k);
    } else {
      PowerAboveLeast(m, k - 1);
    }
  }

  lemma Low4Power()
    ensures Pow2(224) == LOW4
  {
    hide Pow2;
    Pow2Of56();
    Pow2Add(56, 56);
    Pow2Add(112, 112);
  }

  /** The result is the scalar's own multiple exactly for 0 and 1, and for scalars whose leading bits are 224 and 223. */
  lemma FactorIsScalar(s: nat)
    ensures Factor(s) == s <==> s <= 1 || (s / LOW4 == 1 && 2 * (s % LOW4) >= LOW4)
  {
    hide Pow2, PowerAbove;
    var m := s % LOW4;
    PowerAboveBounds(m);
    Low4Power();
    if m > 0 {
      PowerAboveLeast(m, 224);
    }
    Halves(s, m, PowerAbove(m));
  }

  lemma Halves(s: nat, m: nat, p: nat)
    requires m == s % LOW4 && m < p <= LOW4
    ensures m + p == s <==> s / LOW4 == 1 && p == LOW4
  {}

  /** One round of double-and-add on the bits of a limb. */
  lemma BitStep(k: int, z: int, x: int, flag: int)
    requires flag > 0 && x >= 0 && k == z + x / (2 * flag)
    ensures 2 * k + x / flag % 2 == 2 * z + x / flag
  {
    HalveQuotient(x, flag);
  }

  lemma HalveQuotient(x: int, f: int)
    requires f > 0 && x >= 0
    ensures x / (2 * f) == x / f / 2
  {
    var q, r := x / f, x % f;
    HalveWith(x, f, q, r, q / 2, q % 2);
  }

  lemma HalveWith(x: int, f: int, q: int, r: int, j: int, b: int)
    requires x == f * q + r && 0 <= r < f && q == 2 * j + b && 0 <= b <= 1
    ensures x / (2 * f) == j
  {
    Regroup(f, j, b);
    assert f * b == if b == 0 then 0 else f;
    QuotientIs(x, 2 * f, j, f * b + r);
  }

  lemma Regroup(f: int, j: int, b: int)
    ensures f * (2 * j + b) == (2 * f) * j + f * b
  {}

  lemma QuotientIs(x: int, d: int, q: int, r: int)
    requires d > 0 && x == d * q + r && 0 <= r < d
    ensures x / d == q
  {
    var e := x / d - q;
    assert d * e == r - x % d;
    Small(d, e);
  }

  lemma Small(d: int, e: int)
    requires d > 0 && -d < d * e < d
    ensures e == 0
  {}

  lemma Low4(s: Scalar)
    requires Fits(s, 4)
    ensures Low(s, 4) == SVal(s) % LOW4
  {}

  /** From the highest of the low four limbs down to the first that is not zero. */
  method FirstLimb(s: Scalar) returns (limb: int)
    requires Fits(s, 4)
    ensures -1 <= limb <= 3
    ensures limb < 0 <==> Low(s, 4) == 0
    ensures limb >= 0 ==> Limb(s, limb) != 0 && Low(s, 4) == Low(s, limb + 1)
  {
    hide Low, Weight, Limb;
    limb := 3;
    while limb >= 0 && Limb(s, limb) == 0
      invariant -1 <= limb <= 3 && Low(s, 4) == Low(s, limb + 1)
    {
      LowStep(s, limb);
      limb := limb - 1;
    }
    if limb >= 0 {
      LowStep(s, limb);
      LowPositive(s, limb);
    } else {
      LowNone(s);
    }
  }

  lemma LowPositive(s: Scalar, n: nat)
    requires n < 5 && Limb(s, n) != 0
    ensures Low(s, n + 1) > 0
  {}

  /** The flag of the leading bit of a limb. */
  method FirstBit(x: u64) returns (flag: nat, ghost b: nat)
    requires 0 < x < 0x100000000000000
    ensures b <= 55 && flag == Pow2(b) && flag <= x < 2 * flag
  {
    flag := 0x80000000000000;
    b := 55;
    assert flag == Pow2(55) by { Pow2Of56(); Pow2Add(55, 1); }
    while x / flag % 2 == 0
      invariant b <= 55 && flag == Pow2(b) && 0 < x < 2 * flag
      decreases flag
    {
      LeadingBit(x, flag);
      flag := flag / 2;
      b := b - 1;
    }
    LeadingBit(x, flag);
  }

  lemma LeadingBit(x: nat, flag: nat)
    requires 0 < x < 2 * flag
    ensures x / flag % 2 == 0 <==> x < flag
  {
    if x >= flag {
      QuotientIs(x, flag, 1, x - flag);
    }
  }

  /** The multiples a round of the loop gives. */
  lemma Doubled(k: int, a: Point)
    requires CurveFacts() && OnCurve(a)
    ensures Plus(Mult(k, a), Mult(k, a)) == Mult(2 * k, a)
    ensures Plus(Mult(2 * k, a), a) == Mult(2 * k + 1, a)
    ensures OnCurve(Mult(k, a)) && OnCurve(Mult(2 * k, a))
  {
    hide *;
    MultOnCurve(k, a);
    MultOnCurve(2 * k, a);
    MultAdd(k, k, a);
    MultAdd(2 * k, 1, a);
    MultZeroOne(a);
    assert k + k == 2 * k;
  }

  method DoubleAndAdd(r0: Ge, point: Ge, bit: bool, ghost k: int, ghost a: Point) returns (r: Ge)
    requires CurveFacts() && Full(r0, Mult(k, a)) && Full(point, a)
    ensures Full(r, Mult(2 * k + if bit then 1 else 0, a))
  {
    hide *;
    PartialOfFull(point, a);
    FullOnCurve(point, a);
    Doubled(k, a);
    PartialOfFull(r0, Mult(k, a));
    AlwaysAddable(Mult(k, a), Mult(k, a));
    r := Double(r0, Mult(k, a));
    if bit {
      AlwaysAddable(Mult(2 * k, a), a);
      r := GeAdd(r, point, Mult(2 * k, a), a);
    }
  }

  /** The value of the limbs read so far and of those still to come. */
  ghost predicate Position(s: Scalar, limb: nat, y: int, total: int) {
    limb <= 3 && y * Weight(limb) + Low(s, limb) == total
  }

  lemma NextLimb(s: Scalar, limb: nat, y: int, total: int)
    requires Position(s, limb, y, total) && limb > 0
    ensures Position(s, limb - 1, y * 0x100000000000000 + Limb(s, limb - 1), total)
  {
    hide Low, Limb;
    LowStep(s, limb - 1);
    var w := Weight(limb - 1);
    assert Weight(limb) == 0x100000000000000 * w;
    Distributed(y, w, Limb(s, limb - 1));
  }

  lemma Distributed(y: int, w: int, x: int)
    ensures (y * 0x100000000000000 + x) * w == y * (0x100000000000000 * w) + w * x
  {}

  /** Before the bit `flag` of a limb: `k` is the value of the bits read so far. */
  ghost predicate AtBit(s: Scalar, limb: nat, flag: int, z: int, k: int, total: int) {
    limb <= 3 && flag > 0 && k == z + Limb(s, limb) / (2 * flag) && Position(s, limb, Limb(s, limb) + 2 * flag * z, total)
  }

  lemma ReadBit(s: Scalar, limb: nat, flag: int, z: int, k: int, total: int)
    requires AtBit(s, limb, flag, z, k, total)
    ensures var next := 2 * k + Limb(s, limb) / flag % 2;
            if flag == 1 then Position(s, limb, next, total)
            else flag % 2 == 0 ==> AtBit(s, limb, flag / 2, 2 * z, next, total)
  {
    hide Position, Limb;
    BitStep(k, z, Limb(s, limb), flag);
    if flag != 1 && flag % 2 == 0 {
      assert 2 * (flag / 2) * (2 * z) == 2 * flag * z by { Halved(flag, z); }
    }
  }

  lemma Halved(flag: int, z: int)
    requires flag % 2 == 0
    ensures 2 * (flag / 2) * (2 * z) == 2 * flag * z
  {}

  lemma ToNextLimb(s: Scalar, limb: nat, k: int, total: int)
    requires Fits(s, 4) && Position(s, limb, k, total) && limb > 0
    ensures AtBit(s, limb - 1, 0x80000000000000, k, k, total)
  {
    hide Position, Limb;
    assert limb <= 3 by { PositionRange(s, limb, k, total); }
    NextLimb(s, limb, k, total);
    LimbBelow(s, limb - 1);
    QuotientIs(Limb(s, limb - 1), 0x100000000000000, 0, Limb(s, limb - 1));
  }

  lemma PositionRange(s: Scalar, limb: nat, k: int, total: int)
    requires Position(s, limb, k, total)
    ensures limb <= 3
  {}

  /** The bits of the limbs from the leading one down, starting from the point itself. */
  method Exponentiate(point: Ge, s: Scalar, top: nat, flag0: nat, ghost b0: nat, ghost a: Point) returns (r: Ge)
    requires CurveFacts() && Full(point, a) && Fits(s, 4) && top <= 3
    requires b0 <= 55 && flag0 == Pow2(b0) && flag0 <= Limb(s, top) < 2 * flag0
    ensures Full(r, Mult(Low(s, top + 1) + 2 * flag0 * Weight(top), a))
  {
    hide CurveFacts, Full, Mult, Low, Weight, Limb, Fits, Position, AtBit, Pow2;
    ghost var total := Low(s, top + 1) + 2 * flag0 * Weight(top);
    var limb: nat, flag: nat := top, flag0;
    ghost var b: nat, z, k := b0, 1, 1;
    r := point;
    assert Full(r, Mult(1, a)) by {
      PartialOfFull(point, a);
      FullOnCurve(point, a);
      MultZeroOne(a);
    }
    Leading(s, top, flag0, total);
    while true
      invariant limb <= 3 && b <= 55 && 0 < flag == Pow2(b)
      invariant Full(r, Mult(k, a))
      invariant AtBit(s, limb, flag, z, k, total)
      decreases limb, flag
    {
      ReadBit(s, limb, flag, z, k, total);
      r := DoubleAndAdd(r, point, Limb(s, limb) / flag % 2 == 1, k, a);
      k := 2 * k + Limb(s, limb) / flag % 2;
      z := 2 * z;
      if flag == 1 {
        if limb == 0 {
          break;
        }
        ToNextLimb(s, limb, k, total);
        limb := limb - 1;
        flag := 0x80000000000000;
        b, z := 55, k;
        Pow2Of55();
      } else {
        HalfPower(b);
        flag := flag / 2;
        b := b - 1;
      }
    }
    LastPosition(s, k, total);
  }

  lemma Leading(s: Scalar, top: nat, flag: nat, total: int)
    requires top <= 3 && total == Low(s, top + 1) + 2 * flag * Weight(top) && 0 < flag <= Limb(s, top) < 2 * flag
    ensures AtBit(s, top, flag, 1, 1, total)
  {
    hide Position, Low, Limb, Weight;
    LeadingPosition(s, top, flag, total);
    QuotientIs(Limb(s, top), 2 * flag, 0, Limb(s, top));
  }

  lemma Pow2Of55()
    ensures Pow2(55) == 0x80000000000000
  {
    hide Pow2;
    Pow2Of56();
    HalfPower(56);
  }

  lemma LeadingPosition(s: Scalar, top: nat, flag: nat, total: int)
    requires top <= 3 && total == Low(s, top + 1) + 2 * flag * Weight(top)
    ensures Position(s, top, Limb(s, top) + 2 * flag * 1, total)
  {
    hide Low, Limb, Weight;
    LowStep(s, top);
    assert (Limb(s, top) + 2 * flag) * Weight(top) == Weight(top) * Limb(s, top) + 2 * flag * Weight(top);
  }

  lemma LastPosition(s: Scalar, k: int, total: int)
    requires Position(s, 0, k, total)
    ensures k == total
  {}

  lemma LimbBelow(s: Scalar, i: nat)
    requires Fits(s, 4) && i <= 4
    ensures Limb(s, i) < 0x100000000000000
  {}

  lemma HalfPower(b: nat)
    requires Pow2(b) != 1
    ensures b > 0 && Pow2(b) % 2 == 0 && Pow2(b) / 2 == Pow2(b - 1) > 0
  {
    Pow2Mono(b - 1, b - 1);
  }

  /** The final multiplication: nothing comes back when the limb search would leave the scalar. */
  method Final(point: Ge, scalar: Scalar, ghost a: Point) returns (r: Option<Ge>)
    requires CurveFacts() && Full(point, a) && Fits(scalar, 4)
    ensures r.Some? <==> SVal(scalar) <= 1 || SVal(scalar) % LOW4 != 0
    ensures r.Some? ==> Full(r.value, Mult(Factor(SVal(scalar)), a))
  {
    hide CurveFacts, Full, Partial, OnCurve, Mult, Low, Weight, Limb, Fits, SVal, Pow2, PowerAbove;
    PartialOfFull(point, a);
    FullOnCurve(point, a);
    MultZeroOne(a);
    NonNegative(scalar);
    var one := IsOneBatch(scalar);
    if one {
      return Some(point);
    }
    var zero := IsZeroBatch(scalar);
    if zero {
      NeutralGe();
      return Some(NEUTRAL_GE);
    }
    Low4(scalar);
    var limb := FirstLimb(scalar);
    if limb < 0 {
      return None;
    }
    LimbBelow(scalar, limb);
    var flag, b := FirstBit(Limb(scalar, limb));
    var p := Exponentiate(point, scalar, limb, flag, b, a);
    FactorValue(scalar, limb, flag, b);
    r := Some(p);
  }

  /** The doubled leading bit is the least power of two above the value of the limbs. */
  lemma FactorValue(s: Scalar, limb: nat, flag: nat, b: nat)
    requires Fits(s, 4) && limb <= 3 && b <= 55 && flag == Pow2(b) && flag <= Limb(s, limb) < 2 * flag
    ensures PowerAbove(Low(s, limb + 1)) == 2 * flag * Weight(limb)
  {
    hide Low, Weight, Limb, Fits, Pow2, PowerAbove;
    LowStep(s, limb);
    LowRange(s, limb);
    WeightPower(limb);
    Pow2Add(b + 1, 56 * limb);
    Pow2Add(1, b);
    Pow2Of1();
    var w, x, low := Weight(limb), Limb(s, limb), Low(s, limb);
    Spread(w, x, low, flag);
    PowerAboveIs(low + w * x, b + 1 + 56 * limb);
  }

  lemma Spread(w: int, x: int, low: int, flag: int)
    requires w > 0 && 0 <= low < w && flag <= x < 2 * flag
    ensures low + w * x < 2 * flag * w <= 2 * (low + w * x)
  {
    Monotone(w, x, 2 * flag - 1);
    Monotone(w, flag, x);
    assert w * (2 * flag - 1) == 2 * flag * w - w;
    assert w * flag * 2 == 2 * flag * w;
  }

  lemma Monotone(w: int, x: int, y: int)
    requires w > 0 && x <= y
    ensures w * x <= w * y
  {}

  lemma WeightPower(n: nat)
    requires n <= 3
    ensures Weight(n) == Pow2(56 * n)
  {
    hide Pow2;
    Pow2Of56();
    Pow2Add(56, 56);
    Pow2Add(112, 56);
    assert Pow2(0) == 1 by { PowZero(); }
  }

  lemma PowZero()
    ensures Pow2(0) == 1
  {}

  // ---- the whole multiplication ----

  /** `s` has the divisors that the first `n` coefficients share: it is their greatest common divisor. */
  ghost predicate Gcd(s: int, v: seq<int>, n: nat) {
    forall g :: g > 0 ==> (s % g == 0 <==> CommonDivisor(g, v, n))
  }

  /** What annihilates the first `n` points annihilates `p`: it is a sum of multiples of them. */
  ghost predicate Inherits(a: seq<Point>, n: nat, p: Point) {
    forall k: nat :: Annihilates(k, a, n) ==> Mult(k, p) == NEUTRAL
  }

  /** What a run leaves: a scalar `s`, the greatest common divisor, and a point `p` such that s p is the weighted sum. */
  ghost predicate Leaves(v: seq<int>, a: seq<Point>, count: nat, s: nat, p: Point) {
    var n := Reached(v, count);
    && n <= count <= |v| && count <= |a|
    && OnCurve(p) && Mult(s, p) == Total(v, a, 0, n) && Gcd(s, v, n) && Inherits(a, n, p)
  }

  /** Whether the last step finds a limb to start from. */
  predicate Taken(s: nat) {
    s <= 1 || s % LOW4 != 0
  }

  ghost predicate Coprime(v: seq<int>, n: nat) {
    forall g :: CommonDivisor(g, v, n) ==> g == 1
  }

  /** The result is Factor(s) p for what the run leaves, and the weighted sum itself for coprime coefficients. */
  method MultiScalarmult(h: Heap, count: nat, ghost a0: seq<Point>) returns (r: Option<Ge>, ghost s: nat, ghost p: Point)
    requires CurveFacts() && h.Sized() && 5 <= count <= HEAP_BATCH_SIZE && count % 2 == 1
    requires AllFit(h.scalars[..], count, 4) && Stand(h.points[..], a0, count)
    requires forall i :: FirstPart(count) <= i < count ==> SVal(h.scalars[i]) < TWO128
    modifies h, h.heap, h.scalars, h.points
    ensures h.Sized() && count <= |a0|
    ensures Leaves(old(Vals(h.scalars[..])), a0, count, s, p)
    ensures r.Some? <==> Taken(s)
    ensures r.Some? ==> Full(r.value, Mult(Factor(s), p))
    ensures var v := old(Vals(h.scalars[..]));
            AllTakePart(v, count) && Coprime(v, count) ==> r.Some? && Full(r.value, Total(v, a0, 0, count))
  {
    hide SVal, Fits, Full, Plus, CurveFacts, OnCurve, Mult, Total, AllTakePart, Coprime, FirstPart, AllFit, Stand, Vals, Factor,
         Conserved, Gcd, Inherits, Leaves;
    ghost var v0 := Vals(h.scalars[..]);
    StandLength(h.points[..], a0, count);
    var max1;
    ghost var a;
    max1, a := Exhaust(h, count, a0);
    StandAt(h.points[..], a, count, max1);
    Entries4(h.scalars[..], count, max1);
    NonNegative(h.scalars[max1]);
    s, p := SVal(h.scalars[max1]), a[max1];
    LeftOver(v0, a0, h.scalars[..], a, h.size, count, max1);
    r := Final(h.points[max1], h.scalars[max1], p);
    if AllTakePart(v0, count) && Coprime(v0, count) {
      CoprimeLeavesSum(v0, a0, count, s, p);
    }
  }

  lemma StandAt(q: seq<Ge>, a: seq<Point>, n: nat, i: nat)
    requires Stand(q, a, n) && i < n
    ensures i < |q| && i < |a| && Full(q[i], a[i]) && OnCurve(a[i])
  {
    hide Full, OnCurve;
    PartialOfFull(q[i], a[i]);
    FullOnCurve(q[i], a[i]);
  }

  lemma LeftOver(v0: seq<int>, a0: seq<Point>, s: seq<Scalar>, a: seq<Point>, n: nat, count: nat, m1: nat)
    requires CurveFacts() && n == Reached(v0, count) <= count <= |v0| && count <= |a0|
    requires Conserved(v0, a0, Vals(s), a, n) && m1 < n <= |s|
    requires forall i :: 0 <= i < n && i != m1 ==> SVal(s[i]) == 0
    ensures m1 < |a| && SVal(s[m1]) >= 0 && Leaves(v0, a0, count, SVal(s[m1]), a[m1])
  {
    hide CurveFacts, OnCurve, Mult, Total, CommonDivisor, SVal, Annihilates, Reached;
    var v := Vals(s);
    assert OnCurveAll(a, n);
    NonNegative(s[m1]);
    OneTerm(v, a, n, m1);
    forall g | g > 0 ensures SVal(s[m1]) % g == 0 <==> CommonDivisor(g, v0, n) {
      LeftValue(v0, a0, v, a, n, m1, g);
    }
    forall k: nat | Annihilates(k, a0, n) ensures Mult(k, a[m1]) == NEUTRAL {
      LeftAnnihilated(k, a, n, m1);
    }
  }

  lemma LeftAnnihilated(k: nat, a: seq<Point>, n: nat, m1: nat)
    requires Annihilates(k, a, n) && m1 < n
    ensures m1 < |a| && Mult(k, a[m1]) == NEUTRAL
  {}

  /** With coprime coefficients the scalar left is 1, so the point left is the sum itself. */
  lemma CoprimeLeavesSum(v: seq<int>, a: seq<Point>, count: nat, s: nat, p: Point)
    requires CurveFacts() && Leaves(v, a, count, s, p) && AllTakePart(v, count) && Coprime(v, count)
    ensures s == 1 && Factor(s) == 1 && count <= |v| && count <= |a| && Mult(1, p) == Total(v, a, 0, count)
  {
    hide CommonDivisor, CurveFacts, OnCurve, Mult, Total, Inherits;
    assert s % 2 == 0 <==> CommonDivisor(2, v, count);
    if s > 0 {
      DividesItself(s);
      assert s % s == 0 <==> CommonDivisor(s, v, count);
    }
  }

  lemma DividesItself(s: nat)
    requires s > 0
    ensures s % s == 0
  {}

  /** Five equal coefficients all take part and leave 2, for which the last step takes the multiple 6. */
  lemma TwoIsTakenSixTimes()
    ensures Factor(2) == 6
    ensures AllTakePart([2, 2, 2, 2, 2], 5) && Gcd(2, [2, 2, 2, 2, 2], 5)
  {
    var v := [2, 2, 2, 2, 2];
    assert PowerAbove(2) == 2 * PowerAbove(1) && PowerAbove(1) == 2 * PowerAbove(0);
    assert v[0] != 0 && v[1] != 0;
    forall g | g > 0 ensures 2 % g == 0 <==> CommonDivisor(g, v, 5) {
      assert v[0] == 2;
    }
    forall g | g >= TWO128 ensures !CommonDivisor(g, v, 3) {
      SmallNotMultiple(2, g);
      assert v[0] == 2;
    }
  }

  /** One coefficient among the first three: the short ones are never brought in. */
  lemma ShortOnesLeftOut()
    ensures !AllTakePart([5, 0, 0, 1, 1], 5) && Reached([5, 0, 0, 1, 1], 5) == 3
  {}
}
