/** Arithmetic modulo the group order in five 56-bit limbs (modm-donna-64bit.h). */
module ScalarModM {
  import opened Words
  import opened Bitwise

  datatype Scalar = Scalar(l0: u64, l1: u64, l2: u64, l3: u64, l4: u64)

  /** The order of the base point. */
  const L: int := 0x1000000000000000000000000000000014def9dea2f79cd65812631a5cf5d3ed

  function Poly56(l0: int, l1: int, l2: int, l3: int, l4: int): int {
    l0 + 0x100000000000000 * (l1 + 0x100000000000000 * (l2 + 0x100000000000000 * (l3 + 0x100000000000000 * l4)))
  }

  function SVal(s: Scalar): int {
    Poly56(s.l0, s.l1, s.l2, s.l3, s.l4)
  }

  /** Every limb but the top one is in 56 bits, and the top one is below `top`. */
  predicate Limbs(s: Scalar, top: int) {
    s.l0 < 0x100000000000000 && s.l1 < 0x100000000000000 && s.l2 < 0x100000000000000 && s.l3 < 0x100000000000000
    && s.l4 < top
  }

  const MODM_M := Scalar(0x12631a5cf5d3ed, 0xf9dea2f79cd658, 0x000000000014de, 0x00000000000000, 0x00000010000000)
  const MODM_MU := Scalar(0x9ce5a30a2c131b, 0x215d086329a7ed, 0xffffffffeb2106, 0xffffffffffffff, 0x00000fffffffff)

  /** `mu` is the Barrett constant floor(2^512 / L). */
  lemma ModulusValues()
    ensures SVal(MODM_M) == L
    ensures SVal(MODM_MU) == TWO512 / L
  {}

  lemma SValIsPoly(s: Scalar)
    ensures SVal(s) == Poly56(s.l0, s.l1, s.l2, s.l3, s.l4)
  {}

  /** The borrow of a 64-bit subtraction: `(a - b) >> 63`. */
  function LtModm(a: u64, b: u64): u64 {
    Sub64(a, b) / 0x8000000000000000
  }

  lemma LtModmIsLess(a: u64, b: u64)
    requires a < 0x8000000000000000 && b <= 0x8000000000000000
    ensures LtModm(a, b) == if a < b then 1 else 0
  {}

  lemma BorrowValue(x0: int, x1: int, x2: int, x3: int, x4: int, y0: int, y1: int, y2: int, y3: int, y4: int,
                    b0: int, b1: int, b2: int, b3: int, t: int)
    ensures Poly56(x0 - y0 + 0x100000000000000 * b0, x1 - y1 - b0 + 0x100000000000000 * b1,
                   x2 - y2 - b1 + 0x100000000000000 * b2, x3 - y3 - b2 + 0x100000000000000 * b3, x4 - y4 - b3 + t)
         == Poly56(x0, x1, x2, x3, x4) - Poly56(y0, y1, y2, y3, y4)
            + 0x100000000000000000000000000000000000000000000000000000000 * t
  {}

  /**
   Limb-wise subtraction with borrow; `top` is what the last limb is given back when it borrows.
   The last borrow comes back as `b`.
   */
  method SubBorrow(x: Scalar, y: Scalar, top: u64) returns (r: Scalar, b: u64)
    requires Limbs(x, 0x100000000000000) && Limbs(y, 0x100000000000000) && top <= 0x100000000000000
    requires y.l4 < top
    ensures SVal(r) == SVal(x) - SVal(y) + 0x100000000000000000000000000000000000000000000000000000000 * (top * b)
    ensures b == (if SVal(x) < SVal(y) then 1 else 0)
    ensures Limbs(r, 0x100000000000000)
  {
    hide LtModm, SVal, Poly56;
    var pb: u64 := y.l0;
    LtModmIsLess(x.l0, pb);
    b := LtModm(x.l0, pb);
    var r0: u64 := x.l0 - pb + 0x100000000000000 * b;
    pb := b;
    ghost var b0 := b;
    pb := pb + y.l1;
    LtModmIsLess(x.l1, pb);
    b := LtModm(x.l1, pb);
    var r1: u64 := x.l1 - pb + 0x100000000000000 * b;
    pb := b;
    ghost var b1 := b;
    pb := pb + y.l2;
    LtModmIsLess(x.l2, pb);
    b := LtModm(x.l2, pb);
    var r2: u64 := x.l2 - pb + 0x100000000000000 * b;
    pb := b;
    ghost var b2 := b;
    pb := pb + y.l3;
    LtModmIsLess(x.l3, pb);
    b := LtModm(x.l3, pb);
    var r3: u64 := x.l3 - pb + 0x100000000000000 * b;
    pb := b;
    ghost var b3 := b;
    pb := pb + y.l4;
    LtModmIsLess(x.l4, pb);
    b := LtModm(x.l4, pb);
    var r4: u64 := x.l4 - pb + top * b;
    r := Scalar(r0, r1, r2, r3, r4);
    BorrowValue(x.l0, x.l1, x.l2, x.l3, x.l4, y.l0, y.l1, y.l2, y.l3, y.l4, b0, b1, b2, b3, top * b);
    SValIsPoly(r);
    SValIsPoly(x);
    SValIsPoly(y);
    TopDecides(r0, r1, r2, r3, x.l4 - pb);
    BorrowValue(x.l0, x.l1, x.l2, x.l3, x.l4, y.l0, y.l1, y.l2, y.l3, y.l4, b0, b1, b2, b3, 0);
  }

  lemma TopDecides(r0: int, r1: int, r2: int, r3: int, t: int)
    requires 0 <= r0 < 0x100000000000000 && 0 <= r1 < 0x100000000000000
    requires 0 <= r2 < 0x100000000000000 && 0 <= r3 < 0x100000000000000
    ensures Poly56(r0, r1, r2, r3, t) < 0 <==> t < 0
  {}

  /** `r ^= mask & (r ^ t)` with `mask = b - 1`. */
  function Select(b: u64, r: u64, t: u64): (o: u64)
    requires b <= 1
    ensures o == if b == 0 then t else r
  {
    MaskSelects(b, r, t);
    Xor(r, And(Sub64(b, 1), Xor(r, t)))
  }

  /** Keeps `r` if it is below the order and subtracts the order once otherwise. */
  method Reduce(r: Scalar) returns (o: Scalar)
    requires Limbs(r, 0x100000000000000)
    ensures Limbs(o, 0x100000000000000)
    ensures SVal(o) == if SVal(r) < L then SVal(r) else SVal(r) - L
  {
    hide SVal;
    ModulusValues();
    var t, b := SubBorrow(r, MODM_M, 0x100000000);
    o := Scalar(Select(b, r.l0, t.l0), Select(b, r.l1, t.l1), Select(b, r.l2, t.l2), Select(b, r.l3, t.l3),
                Select(b, r.l4, t.l4));
  }

  // ---- products ----

  lemma Scale56(c: int, s0: int, s1: int, s2: int, s3: int, s4: int)
    ensures c * Poly56(s0, s1, s2, s3, s4) == Poly56(c * s0, c * s1, c * s2, c * s3, c * s4)
  {
    var t3 := s3 + 0x100000000000000 * s4;
    assert c * t3 == c * s3 + 0x100000000000000 * (c * s4);
    var t2 := s2 + 0x100000000000000 * t3;
    assert c * t2 == c * s2 + 0x100000000000000 * (c * t3);
    var t1 := s1 + 0x100000000000000 * t2;
    assert c * t1 == c * s1 + 0x100000000000000 * (c * t2);
  }

  function Row56(c: u64, s: Scalar): int {
    Poly56(Mul128(c, s.l0), Mul128(c, s.l1), Mul128(c, s.l2), Mul128(c, s.l3), Mul128(c, s.l4))
  }

  lemma RowValue56(c: u64, s: Scalar)
    ensures Row56(c, s) == c as int * SVal(s)
  {
    Scale56(c, s.l0, s.l1, s.l2, s.l3, s.l4);
  }

  lemma Spread56(r: Scalar, v: int)
    ensures SVal(r) * v == Poly56(r.l0 * v, r.l1 * v, r.l2 * v, r.l3 * v, r.l4 * v)
  {
    Scale56(v, r.l0, r.l1, r.l2, r.l3, r.l4);
  }

  lemma Rows56(r: Scalar, s: Scalar)
    ensures SVal(r) * SVal(s) == Poly56(Row56(r.l0, s), Row56(r.l1, s), Row56(r.l2, s), Row56(r.l3, s), Row56(r.l4, s))
  {
    hide *;
    Spread56(r, SVal(s));
    RowValue56(r.l0, s);
    RowValue56(r.l1, s);
    RowValue56(r.l2, s);
    RowValue56(r.l3, s);
    RowValue56(r.l4, s);
  }

  /** The value of nine columns, 56 bits apart. */
  function Wide(c0: int, c1: int, c2: int, c3: int, c4: int, c5: int, c6: int, c7: int, c8: int): int {
    Poly56(c0, c1, c2, c3, Poly56(c4, c5, c6, c7, c8))
  }

  lemma Columns(
             p00: int, p01: int, p02: int, p03: int, p04: int,
             p10: int, p11: int, p12: int, p13: int, p14: int,
             p20: int, p21: int, p22: int, p23: int, p24: int,
             p30: int, p31: int, p32: int, p33: int, p34: int,
             p40: int, p41: int, p42: int, p43: int, p44: int)
    ensures Poly56(Poly56(p00, p01, p02, p03, p04), Poly56(p10, p11, p12, p13, p14), Poly56(p20, p21, p22, p23, p24),
                   Poly56(p30, p31, p32, p33, p34), Poly56(p40, p41, p42, p43, p44))
         == Wide(p00, p01 + p10, p02 + p11 + p20, p03 + p12 + p21 + p30, p04 + p13 + p22 + p31 + p40, p14 + p23 + p32 + p41,
                 p24 + p33 + p42, p34 + p43, p44)
  {}

  /** A product is the value of its nine columns of partial products. */
  lemma ProductColumns(r: Scalar, s: Scalar)
    ensures SVal(r) * SVal(s)
         == Wide(Mul128(r.l0, s.l0),
                 Mul128(r.l0, s.l1) + Mul128(r.l1, s.l0),
                 Mul128(r.l0, s.l2) + Mul128(r.l1, s.l1) + Mul128(r.l2, s.l0),
                 Mul128(r.l0, s.l3) + Mul128(r.l1, s.l2) + Mul128(r.l2, s.l1) + Mul128(r.l3, s.l0),
                 Mul128(r.l0, s.l4) + Mul128(r.l1, s.l3) + Mul128(r.l2, s.l2) + Mul128(r.l3, s.l1) + Mul128(r.l4, s.l0),
                 Mul128(r.l1, s.l4) + Mul128(r.l2, s.l3) + Mul128(r.l3, s.l2) + Mul128(r.l4, s.l1),
                 Mul128(r.l2, s.l4) + Mul128(r.l3, s.l3) + Mul128(r.l4, s.l2),
                 Mul128(r.l3, s.l4) + Mul128(r.l4, s.l3),
                 Mul128(r.l4, s.l4))
  {
    hide SVal, Poly56, Mul128, Wide;
    Rows56(r, s);
    Columns(Mul128(r.l0, s.l0), Mul128(r.l0, s.l1), Mul128(r.l0, s.l2), Mul128(r.l0, s.l3), Mul128(r.l0, s.l4),
            Mul128(r.l1, s.l0), Mul128(r.l1, s.l1), Mul128(r.l1, s.l2), Mul128(r.l1, s.l3), Mul128(r.l1, s.l4),
            Mul128(r.l2, s.l0), Mul128(r.l2, s.l1), Mul128(r.l2, s.l2), Mul128(r.l2, s.l3), Mul128(r.l2, s.l4),
            Mul128(r.l3, s.l0), Mul128(r.l3, s.l1), Mul128(r.l3, s.l2), Mul128(r.l3, s.l3), Mul128(r.l3, s.l4),
            Mul128(r.l4, s.l0), Mul128(r.l4, s.l1), Mul128(r.l4, s.l2), Mul128(r.l4, s.l3), Mul128(r.l4, s.l4));
  }

  lemma Products56()
    ensures forall a: u64, b: u64 ::
              a <= 0x100000000000000 && b <= 0x100000000000000 ==> Mul128(a, b) <= 0x10000000000000000000000000000
    ensures forall a: u64, b: u64 ::
              a <= 0x100000000000000 && b <= 0x10000000000 ==> Mul128(a, b) <= 0x1000000000000000000000000
    ensures forall a: u64, b: u64 ::
              a <= 0x10000000000 && b <= 0x100000000000000 ==> Mul128(a, b) <= 0x1000000000000000000000000
    ensures forall a: u64, b: u64 :: a <= 0x10000000000 && b <= 0x10000000000 ==> Mul128(a, b) <= 0x100000000000000000000
  {
    forall a: u64, b: u64 | a <= 0x100000000000000 && b <= 0x100000000000000
      ensures Mul128(a, b) <= 0x10000000000000000000000000000
    {
      MulBound(a, b, 0x100000000000000, 0x100000000000000);
    }
    forall a: u64, b: u64 | a <= 0x100000000000000 && b <= 0x10000000000 ensures Mul128(a, b) <= 0x1000000000000000000000000 {
      MulBound(a, b, 0x100000000000000, 0x10000000000);
    }
    forall a: u64, b: u64 | a <= 0x10000000000 && b <= 0x100000000000000 ensures Mul128(a, b) <= 0x1000000000000000000000000 {
      MulBound(a, b, 0x10000000000, 0x100000000000000);
    }
    forall a: u64, b: u64 | a <= 0x10000000000 && b <= 0x10000000000 ensures Mul128(a, b) <= 0x100000000000000000000 {
      MulBound(a, b, 0x10000000000, 0x10000000000);
    }
  }

  // ---- Barrett reduction ----

  /**
   The estimate is good enough: with x = 2^248 q1 + rest and q3 the quotient estimate from all but the lowest three
   columns of mu q1, the remainder x - q3 L is never negative and needs at most two subtractions.
   */
  lemma BarrettBound(q1: int, rest: int, high: int, low: int, q3: int)
    requires 0 <= q1 < TWO264 && 0 <= rest < TWO248
    requires 0xfffffffffffffffffffffffffffffffeb2106215d086329a7ed9ce5a30a2c131b * q1
             == 0x1000000000000000000000000000000000000000000 * high + low
    requires 0 <= low < 0x1000000000000000000000000000000000000000000000000000000000
    requires 0x1000000000000000000000000 * q3 <= high < 0x1000000000000000000000000 * (q3 + 1)
    ensures 0 <= TWO248 * q1 + rest - L * q3 < 3 * L
  {}

  /** `(f >> 40) & 0xffff`, the top of a 56-bit digit. */
  function Top16(f: int): int {
    f / 0x10000000000 % 0x10000
  }

  /** `(f << 16) & 0xffffffffffffff` on a 64-bit word. */
  function Up16(f: int): int {
    f * 0x10000 % 0x10000000000000000 % 0x100000000000000
  }

  lemma SameModL(x: int, y: int, k: int)
    requires x == y + L * k
    ensures x % L == y % L
  {}

  lemma DivideL(x: int)
    ensures x == L * (x / L) + x % L && 0 <= x % L < L
  {}

  /** Adding residues modulo L. */
  lemma AddReduced(t: int, x: int, y: int, k: int)
    requires y == x + L * k
    ensures (t % L + x % L) % L == (t + y) % L
  {
    DivideL(t);
    DivideL(x);
    SameModL(t + y, t % L + x % L, t / L + x / L + k);
  }

  lemma ScaleMultiple(h: int, k: int, b: int, a: int)
    requires a == L * k + b
    ensures h * a == h * b + L * (h * k)
  {
    assert h * (L * k) == L * (h * k);
  }

  lemma Shift16With(f: int, lo: int, m0: int, m1: int, high: int)
    requires f == lo + 0x10000000000 * (m0 + 0x100 * (m1 + 0x100 * high)) && 0 <= lo < 0x10000000000 && 0 <= m0 < 0x100
             && 0 <= m1 < 0x100 && 0 <= high
    ensures Top16(f) == f % 0x100000000000000 / 0x10000000000
    ensures Up16(f) == 0x10000 * (f % 0x100000000000000 % 0x10000000000)
  {
    var mid := m0 + 0x100 * m1;
    Split40(f, mid + 0x10000 * high, lo);
    Low16(mid + 0x10000 * high, high, mid);
    Mod56(f, high, lo + 0x10000000000 * mid);
    Split40(lo + 0x10000000000 * mid, mid, lo);
    Mod64(f * 0x10000, m1 + 0x100 * high, 0x10000 * lo + 0x100000000000000 * m0);
    Mod56(0x10000 * lo + 0x100000000000000 * m0, m0, 0x10000 * lo);
  }

  lemma Split40(x: int, q: int, r: int)
    requires x == 0x10000000000 * q + r && 0 <= r < 0x10000000000
    ensures x / 0x10000000000 == q && x % 0x10000000000 == r
  {}

  lemma Low16(x: int, q: int, r: int)
    requires x == 0x10000 * q + r && 0 <= r < 0x10000
    ensures x % 0x10000 == r
  {}

  lemma Shift16(f: u64)
    ensures Top16(f) == f % 0x100000000000000 / 0x10000000000
    ensures Up16(f) == 0x10000 * (f % 0x100000000000000 % 0x10000000000)
  {
    hide Top16, Up16;
    var h := f / 0x10000000000;
    var g := h / 0x100;
    Shift16With(f, f % 0x10000000000, h % 0x100, g % 0x100, g / 0x100);
  }

  lemma LowDigit(c: u128)
    ensures c % 0x10000000000000000 % 0x100000000000000 == c % 0x100000000000000
  {}

  /** One column with its carry in: its 56-bit digit, split at bit 40, and its carry out. */
  method ColumnStep(column: u128, carry: u64) returns (up: u64, top: u64, f: u64, ghost w: int)
    requires column <= 0x50000000000000000000000000000
    ensures column + carry == w + 0x10000000000 * top + 0x100000000000000 * f
    ensures 0 <= w < 0x10000000000 && up == 0x10000 * w && top < 0x10000
    ensures column <= 0x100000000000000000000 && carry < 0x1000000000000000 ==> f < 0x2000000
    ensures f < 0x1000000000000000
  {
    hide Top16, Up16;
    var c: u128 := column + carry;
    Shift16(c % 0x10000000000000000);
    LowDigit(c);
    up := Up16(c % 0x10000000000000000);
    top := Top16(c % 0x10000000000000000);
    f := c / 0x100000000000000;
    w := c % 0x100000000000000 % 0x10000000000;
  }

  /** Six carried columns, cut at bit 96 of their value. */
  lemma QuotientValue(c3: int, c4: int, c5: int, c6: int, c7: int, c8: int, e3: int,
                      f3: int, f4: int, f5: int, f6: int, f7: int, f8: int,
                      h4: int, h5: int, h6: int, h7: int, h8: int, w4: int, w5: int, w6: int, w7: int, w8: int)
    requires c3 == e3 + 0x100000000000000 * f3
    requires c4 + f3 == w4 + 0x10000000000 * h4 + 0x100000000000000 * f4
    requires c5 + f4 == w5 + 0x10000000000 * h5 + 0x100000000000000 * f5
    requires c6 + f5 == w6 + 0x10000000000 * h6 + 0x100000000000000 * f6
    requires c7 + f6 == w7 + 0x10000000000 * h7 + 0x100000000000000 * f7
    requires c8 + f7 == w8 + 0x10000000000 * h8 + 0x100000000000000 * f8
    ensures High(c3, c4, c5, c6, c7, c8)
         == 0x1000000000000000000000000 * Poly56(h4 + 0x10000 * w5, h5 + 0x10000 * w6, h6 + 0x10000 * w7,
                                          h7 + 0x10000 * w8, h8 + 0x10000 * f8)
            + 0x100000000000000 * w4 + e3
  {}

  function High(c3: int, c4: int, c5: int, c6: int, c7: int, c8: int): int {
    Poly56(c3, c4, c5, c6, Poly56(c7, c8, 0, 0, 0))
  }

  lemma WideSplit(c0: int, c1: int, c2: int, c3: int, c4: int, c5: int, c6: int, c7: int, c8: int)
    ensures Wide(c0, c1, c2, c3, c4, c5, c6, c7, c8)
         == 0x1000000000000000000000000000000000000000000 * High(c3, c4, c5, c6, c7, c8)
            + (c0 + 0x100000000000000 * c1 + 0x10000000000000000000000000000 * c2)
  {}

  /** Carrying columns 3 to 8 upwards and cutting the result at bit 264 of the whole product. */
  method CarryQuotient(c3: u128, c4: u128, c5: u128, c6: u128, c7: u128, c8: u128) returns (q3: Scalar)
    requires c3 <= 0x40000000000000000000000000000 && c4 <= 0x40000000000000000000000000000
             && c5 <= 0x40000000000000000000000000000 && c6 <= 0x40000000000000000000000000000
    requires c7 <= 0x2000000000000000000000000 && c8 <= 0x100000000000000000000
    ensures Limbs(q3, 0x1000000000000)
    ensures 0x1000000000000000000000000 * SVal(q3) <= High(c3, c4, c5, c6, c7, c8)
            < 0x1000000000000000000000000 * (SVal(q3) + 1)
  {
    hide SVal, Poly56, High;
    var f: u64 := c3 / 0x100000000000000;
    ghost var f3 := f;
    ghost var w4, w5, w6, w7, w8;
    var up, z0, z1, z2, z3, z4;
    up, z0, f, w4 := ColumnStep(c4, f);
    ghost var f4, h4 := f, z0;
    up, z1, f, w5 := ColumnStep(c5, f);
    ghost var f5, h5 := f, z1;
    z0 := z0 + up;
    up, z2, f, w6 := ColumnStep(c6, f);
    ghost var f6, h6 := f, z2;
    z1 := z1 + up;
    up, z3, f, w7 := ColumnStep(c7, f);
    ghost var f7, h7 := f, z3;
    z2 := z2 + up;
    up, z4, f, w8 := ColumnStep(c8, f);
    ghost var f8, h8 := f, z4;
    z3 := z3 + up;
    z4 := z4 + f * 0x10000;
    q3 := Scalar(z0, z1, z2, z3, z4);
    QuotientValue(c3, c4, c5, c6, c7, c8, c3 % 0x100000000000000, f3, f4, f5, f6, f7, f8,
                  h4, h5, h6, h7, h8, w4, w5, w6, w7, w8);
    SValIsPoly(q3);
  }

  /**
   The quotient estimate of `barrett_reduce256_modm`, from columns 3 to 8 of mu q1 only: columns 0 to 2 are never
   computed. For every x whose bits from 248 up are q1, the remainder x - q3 L lies in [0, 3 L).
   */
  method Quotient(q1: Scalar) returns (q3: Scalar)
    requires Limbs(q1, 0x10000000000)
    ensures Limbs(q3, 0x1000000000000)
    ensures 0 <= TWO248 * SVal(q1) - L * SVal(q3) <= 3 * L - TWO248
  {
    hide SVal, Poly56, Mul128, Wide, High;
    Products56();
    var mu := MODM_MU;
    var c3: u128 := Mul128(mu.l0, q1.l3) + Mul128(mu.l1, q1.l2) + Mul128(mu.l2, q1.l1) + Mul128(mu.l3, q1.l0);
    var c4: u128 := Mul128(mu.l0, q1.l4) + Mul128(mu.l1, q1.l3) + Mul128(mu.l2, q1.l2) + Mul128(mu.l3, q1.l1)
        + Mul128(mu.l4, q1.l0);
    var c5: u128 := Mul128(mu.l1, q1.l4) + Mul128(mu.l2, q1.l3) + Mul128(mu.l3, q1.l2) + Mul128(mu.l4, q1.l1);
    var c6: u128 := Mul128(mu.l2, q1.l4) + Mul128(mu.l3, q1.l3) + Mul128(mu.l4, q1.l2);
    var c7: u128 := Mul128(mu.l3, q1.l4) + Mul128(mu.l4, q1.l3);
    var c8: u128 := Mul128(mu.l4, q1.l4);
    q3 := CarryQuotient(c3, c4, c5, c6, c7, c8);
    ghost var c0, c1, c2 := Mul128(mu.l0, q1.l0), Mul128(mu.l0, q1.l1) + Mul128(mu.l1, q1.l0),
        Mul128(mu.l0, q1.l2) + Mul128(mu.l1, q1.l1) + Mul128(mu.l2, q1.l0);
    ProductColumns(mu, q1);
    WideSplit(c0, c1, c2, c3, c4, c5, c6, c7, c8);
    ModulusValues();
    SValBound(q1);
    ghost var low := c0 + 0x100000000000000 * c1 + 0x10000000000000000000000000000 * c2;
    BarrettBound(SVal(q1), 0, High(c3, c4, c5, c6, c7, c8), low, SVal(q3));
    BarrettBound(SVal(q1), 0xffffffffffffffffffffffffffffffffffffffffffffffffffffffffffffff, High(c3, c4, c5, c6, c7, c8), low,
                 SVal(q3));
  }

  lemma SValBound(s: Scalar)
    requires Limbs(s, 0x10000000000)
    ensures 0 <= SVal(s) < TWO264
  {}

  lemma LowValue(c0: int, c1: int, c2: int, c3: int, c4: int, c5: int, c6: int, c7: int, c8: int,
                 d0: int, d1: int, d2: int, d3: int, d4: int, f0: int, f1: int, f2: int, f3: int, f4: int)
    requires c0 == d0 + 0x100000000000000 * f0 && c1 + f0 == d1 + 0x100000000000000 * f1
    requires c2 + f1 == d2 + 0x100000000000000 * f2 && c3 + f2 == d3 + 0x100000000000000 * f3
    requires c4 + f3 == d4 + 0x10000000000 * f4
    ensures Wide(c0, c1, c2, c3, c4, c5, c6, c7, c8)
         == Poly56(d0, d1, d2, d3, d4)
            + TWO264 * (f4 + 0x10000 * Poly56(c5, c6, c7, c8, 0))
  {}

  lemma Remainder264(x: int, q: int, r: int)
    requires x == TWO264 * q + r && 0 <= r < TWO264
    ensures x % TWO264 == r
  {}

  /** Five carried columns: a product modulo 2^264. */
  method CarryLow(c0: u128, c1: u128, c2: u128, c3: u128, c4: u128,
                  ghost c5: int, ghost c6: int, ghost c7: int, ghost c8: int) returns (r: Scalar)
    requires c0 <= 0x50000000000000000000000000000 && c1 <= 0x50000000000000000000000000000
             && c2 <= 0x50000000000000000000000000000
    requires c3 <= 0x50000000000000000000000000000 && c4 <= 0x50000000000000000000000000000
    ensures Limbs(r, 0x10000000000)
    ensures SVal(r) == Wide(c0, c1, c2, c3, c4, c5, c6, c7, c8) % TWO264
  {
    hide SVal, Poly56, Wide;
    var z0: u64 := c0 % 0x100000000000000;
    var f: u64 := c0 / 0x100000000000000;
    ghost var f0 := f;
    var c: u128 := c1 + f;
    var z1: u64 := c % 0x100000000000000;
    f := c / 0x100000000000000;
    ghost var f1 := f;
    c := c2 + f;
    var z2: u64 := c % 0x100000000000000;
    f := c / 0x100000000000000;
    ghost var f2 := f;
    c := c3 + f;
    var z3: u64 := c % 0x100000000000000;
    f := c / 0x100000000000000;
    ghost var f3 := f;
    c := c4 + f;
    var z4: u64 := c % 0x10000000000;
    r := Scalar(z0, z1, z2, z3, z4);
    LowValue(c0, c1, c2, c3, c4, c5, c6, c7, c8, z0, z1, z2, z3, z4, f0, f1, f2, f3, c / 0x10000000000);
    SValIsPoly(r);
    SValBound(r);
    Remainder264(Wide(c0, c1, c2, c3, c4, c5, c6, c7, c8),
                 c / 0x10000000000 + 0x10000 * Poly56(c5, c6, c7, c8, 0), SVal(r));
  }

  /** The low 264 bits of L q3. */
  method LowProduct(q3: Scalar) returns (r2: Scalar)
    requires Limbs(q3, 0x1000000000000)
    ensures Limbs(r2, 0x10000000000)
    ensures SVal(r2) == L * SVal(q3) % TWO264
  {
    hide SVal, Poly56, Mul128, Wide;
    Products56();
    var m := MODM_M;
    var c0: u128 := Mul128(m.l0, q3.l0);
    var c1: u128 := Mul128(m.l0, q3.l1) + Mul128(m.l1, q3.l0);
    var c2: u128 := Mul128(m.l0, q3.l2) + Mul128(m.l1, q3.l1) + Mul128(m.l2, q3.l0);
    var c3: u128 := Mul128(m.l0, q3.l3) + Mul128(m.l1, q3.l2) + Mul128(m.l2, q3.l1) + Mul128(m.l3, q3.l0);
    var c4: u128 := Mul128(m.l0, q3.l4) + Mul128(m.l1, q3.l3) + Mul128(m.l2, q3.l2) + Mul128(m.l3, q3.l1) + Mul128(m.l4, q3.l0);
    ghost var c5 := Mul128(m.l1, q3.l4) + Mul128(m.l2, q3.l3) + Mul128(m.l3, q3.l2) + Mul128(m.l4, q3.l1);
    ghost var c6 := Mul128(m.l2, q3.l4) + Mul128(m.l3, q3.l3) + Mul128(m.l4, q3.l2);
    ghost var c7 := Mul128(m.l3, q3.l4) + Mul128(m.l4, q3.l3);
    ghost var c8 := Mul128(m.l4, q3.l4);
    r2 := CarryLow(c0, c1, c2, c3, c4, c5, c6, c7, c8);
    ProductColumns(m, q3);
    ModulusValues();
  }

  /** `x` given as its bits from 248 up and its low 264 bits. */
  ghost predicate Halves(x: int, q1: int, r1: int) {
    q1 == x / TWO248 && r1 == x % TWO264
  }

  lemma BarrettFinish(x: int, q1: int, q3: int, r1: int, r2: int, b: int, r: int)
    requires Halves(x, q1, r1) && 0 <= TWO248 * q1 - L * q3 <= 3 * L - TWO248
    requires r2 == L * q3 % TWO264 && b == (if r1 < r2 then 1 else 0)
    requires r == r1 - r2 + 0x100000000000000000000000000000000000000000000000000000000 * (0x10000000000 * b)
    ensures r == x - L * q3 && 0 <= r < 3 * L
  {
    RemainderRange(x, q1, q3);
    Subtract264(x, L * q3, r1, r2, b, r);
  }

  lemma RemainderRange(x: int, q1: int, q3: int)
    requires q1 == x / TWO248 && 0 <= TWO248 * q1 - L * q3 <= 3 * L - TWO248
    ensures 0 <= x - L * q3 < 3 * L
  {}

  /** A difference known to be small is recovered from its residues modulo 2^264. */
  lemma Subtract264(x: int, t: int, r1: int, r2: int, b: int, r: int)
    requires 0 <= x - t < 3 * L && r1 == x % TWO264 && r2 == t % TWO264
    requires b == (if r1 < r2 then 1 else 0)
    requires r == r1 - r2 + 0x100000000000000000000000000000000000000000000000000000000 * (0x10000000000 * b)
    ensures r == x - t
  {
    var q, k := x / TWO264, t / TWO264;
    Divided(x);
    Divided(t);
    Recovered(x - t, q - k, r1, r2, b);
  }

  lemma Divided(x: int)
    ensures x == TWO264 * (x / TWO264) + x % TWO264 && 0 <= x % TWO264 < TWO264
  {}

  lemma Recovered(d: int, k: int, r1: int, r2: int, b: int)
    requires d == TWO264 * k + r1 - r2 && 0 <= d < 3 * L && 0 <= r1 < TWO264 && 0 <= r2 < TWO264
    requires b == (if r1 < r2 then 1 else 0)
    ensures d == r1 - r2 + TWO264 * b
  {}

  /** Two conditional subtractions finish the reduction of anything below 3 L. */
  lemma TwoSubtractions(x: int, q: int, v: int, w: int, y: int)
    requires v == x - L * q && 0 <= v < 3 * L
    requires w == (if v < L then v else v - L) && y == (if w < L then w else w - L)
    ensures y == x % L
  {}

  /** Barrett reduction: for x < 2^512 given as q1 = x >> 248 and r1 = x mod 2^264, exactly x mod L. */
  method Barrett(q1: Scalar, r1: Scalar, ghost x: int) returns (r: Scalar)
    requires Limbs(q1, 0x10000000000) && Limbs(r1, 0x10000000000)
    requires Halves(x, SVal(q1), SVal(r1))
    ensures Limbs(r, 0x20000000)
    ensures SVal(r) == x % L
  {
    hide SVal, Halves;
    var q3 := Quotient(q1);
    var r2 := LowProduct(q3);
    var b;
    r, b := SubBorrow(r1, r2, 0x10000000000);
    BarrettFinish(x, SVal(q1), SVal(q3), SVal(r1), SVal(r2), b, SVal(r));
    ghost var v := SVal(r);
    r := Reduce(r);
    ghost var w := SVal(r);
    r := Reduce(r);
    TwoSubtractions(x, SVal(q3), v, w, SVal(r));
    ReducedLimbs(r);
  }

  lemma ReducedLimbs(r: Scalar)
    requires Limbs(r, 0x100000000000000) && SVal(r) < L
    ensures Limbs(r, 0x20000000)
  {}

  lemma CarryAddValue(x0: int, x1: int, x2: int, x3: int, x4: int, c0: int, c1: int, c2: int, c3: int)
    ensures Poly56(x0 - 0x100000000000000 * c0, x1 + c0 - 0x100000000000000 * c1, x2 + c1 - 0x100000000000000 * c2,
                   x3 + c2 - 0x100000000000000 * c3, x4 + c3)
         == Poly56(x0, x1, x2, x3, x4)
  {}

  lemma PolyAdd(x: Scalar, y: Scalar)
    ensures SVal(x) + SVal(y)
         == Poly56(x.l0 + y.l0 as int, x.l1 + y.l1 as int, x.l2 + y.l2 as int, x.l3 + y.l3 as int, x.l4 + y.l4 as int)
  {}

  /** The sum with at most one subtraction of L: exact modulo L whenever the sum is below 2 L. */
  method Add256(x: Scalar, y: Scalar) returns (r: Scalar)
    requires Limbs(x, 0x100000000) && Limbs(y, 0x100000000)
    ensures SVal(r) == if SVal(x) + SVal(y) < L then SVal(x) + SVal(y) else SVal(x) + SVal(y) - L
    ensures SVal(x) < L && SVal(y) < L ==> SVal(r) == (SVal(x) + SVal(y)) % L && Limbs(r, 0x20000000)
  {
    hide SVal, Poly56;
    var c: u64 := x.l0 + y.l0;
    var z0 := c % 0x100000000000000;
    c := c / 0x100000000000000;
    ghost var c0 := c;
    c := c + (x.l1 + y.l1);
    var z1 := c % 0x100000000000000;
    c := c / 0x100000000000000;
    ghost var c1 := c;
    c := c + (x.l2 + y.l2);
    var z2 := c % 0x100000000000000;
    c := c / 0x100000000000000;
    ghost var c2 := c;
    c := c + (x.l3 + y.l3);
    var z3 := c % 0x100000000000000;
    c := c / 0x100000000000000;
    ghost var c3 := c;
    c := c + (x.l4 + y.l4);
    r := Scalar(z0, z1, z2, z3, c);
    PolyAdd(x, y);
    CarryAddValue(x.l0 + y.l0, x.l1 + y.l1, x.l2 + y.l2, x.l3 + y.l3, x.l4 + y.l4, c0, c1, c2, c3);
    SValIsPoly(r);
    r := Reduce(r);
    SValNonNegative(x);
    SValNonNegative(y);
    if SVal(x) < L && SVal(y) < L {
      ReducedLimbs(r);
    }
  }

  lemma SValNonNegative(s: Scalar)
    ensures 0 <= SVal(s)
  {}

  /** `(f >> 24) & 0xffffffff` and `(f << 32) & 0xffffffffffffff` on a 64-bit word. */
  function Top32(f: int): int {
    f / 0x1000000 % 0x100000000
  }

  function Up32(f: int): int {
    f * 0x100000000 % 0x10000000000000000 % 0x100000000000000
  }

  lemma Shift32With(f: int, lo: int, m0: int, m1: int, high: int)
    requires f == lo + 0x1000000 * (m0 + 0x100 * (m1 + 0x1000000 * high)) && 0 <= lo < 0x1000000 && 0 <= m0 < 0x100
             && 0 <= m1 < 0x1000000 && 0 <= high
    ensures Top32(f) == f % 0x100000000000000 / 0x1000000
    ensures Up32(f) == 0x100000000 * (f % 0x100000000000000 % 0x1000000)
  {
    var mid := m0 + 0x100 * m1;
    Split24(f, mid + 0x100000000 * high, lo);
    Low32(mid + 0x100000000 * high, high, mid);
    Mod56(f, high, lo + 0x1000000 * mid);
    Split24(lo + 0x1000000 * mid, mid, lo);
    Mod64(f * 0x100000000, m1 + 0x1000000 * high, 0x100000000 * lo + 0x100000000000000 * m0);
    Mod56(0x100000000 * lo + 0x100000000000000 * m0, m0, 0x100000000 * lo);
  }

  lemma Split24(x: int, q: int, r: int)
    requires x == 0x1000000 * q + r && 0 <= r < 0x1000000
    ensures x / 0x1000000 == q && x % 0x1000000 == r
  {}

  lemma Low32(x: int, q: int, r: int)
    requires x == 0x100000000 * q + r && 0 <= r < 0x100000000
    ensures x % 0x100000000 == r
  {}

  lemma Shift32(f: u64)
    ensures Top32(f) == f % 0x100000000000000 / 0x1000000
    ensures Up32(f) == 0x100000000 * (f % 0x100000000000000 % 0x1000000)
  {
    hide Top32, Up32;
    var h := f / 0x1000000;
    var g := h / 0x100;
    Shift32With(f, f % 0x1000000, h % 0x100, g % 0x1000000, g / 0x1000000);
  }

  /** One column with its carry in: its 56-bit digit, split at bit 24, and its carry out. */
  method ColumnStep24(column: u128, carry: u64) returns (up: u64, top: u64, f: u64, ghost w: int)
    requires column <= 0x50000000000000000000000000000
    ensures column + carry == w + 0x1000000 * top + 0x100000000000000 * f
    ensures 0 <= w < 0x1000000 && up == 0x100000000 * w && top < 0x100000000
    ensures column <= 0x10000000000000000 && carry < 0x1000000000000000 ==> f < 0x200
    ensures f < 0x1000000000000000
  {
    hide Top32, Up32;
    var c: u128 := column + carry;
    Shift32(c % 0x10000000000000000);
    LowDigit(c);
    up := Up32(c % 0x10000000000000000);
    top := Top32(c % 0x10000000000000000);
    f := c / 0x100000000000000;
    w := c % 0x100000000000000 % 0x1000000;
  }

  lemma HighValue(c0: int, c1: int, c2: int, c3: int, c4: int, c5: int, c6: int, c7: int, c8: int,
                  d0: int, d1: int, d2: int, d3: int, f0: int, f1: int, f2: int, f3: int,
                  f4: int, f5: int, f6: int, f7: int, f8: int,
                  h4: int, h5: int, h6: int, h7: int, h8: int, w4: int, w5: int, w6: int, w7: int, w8: int)
    requires c0 == d0 + 0x100000000000000 * f0 && c1 + f0 == d1 + 0x100000000000000 * f1
    requires c2 + f1 == d2 + 0x100000000000000 * f2 && c3 + f2 == d3 + 0x100000000000000 * f3
    requires c4 + f3 == w4 + 0x1000000 * h4 + 0x100000000000000 * f4
    requires c5 + f4 == w5 + 0x1000000 * h5 + 0x100000000000000 * f5
    requires c6 + f5 == w6 + 0x1000000 * h6 + 0x100000000000000 * f6
    requires c7 + f6 == w7 + 0x1000000 * h7 + 0x100000000000000 * f7
    requires c8 + f7 == w8 + 0x1000000 * h8 + 0x100000000000000 * f8
    ensures Wide(c0, c1, c2, c3, c4, c5, c6, c7, c8)
         == TWO248 * Poly56(h4 + 0x100000000 * w5, h5 + 0x100000000 * w6, h6 + 0x100000000 * w7,
                                 h7 + 0x100000000 * w8, h8 + 0x100000000 * f8)
            + Poly56(d0, d1, d2, d3, w4)
  {}

  lemma Quotient248(x: int, q: int, r: int)
    requires x == TWO248 * q + r && 0 <= r < TWO248
    ensures x / TWO248 == q
  {}

  lemma PolyBound248(d0: int, d1: int, d2: int, d3: int, w: int)
    requires 0 <= d0 < 0x100000000000000 && 0 <= d1 < 0x100000000000000 && 0 <= d2 < 0x100000000000000
             && 0 <= d3 < 0x100000000000000 && 0 <= w < 0x1000000
    ensures 0 <= Poly56(d0, d1, d2, d3, w) < TWO248
  {}

  /** Nine carried columns: the bits of the product from 248 up. */
  method CarryHigh(c0: u128, c1: u128, c2: u128, c3: u128, c4: u128, c5: u128, c6: u128, c7: u128, c8: u128)
    returns (q1: Scalar)
    requires c0 <= 0x50000000000000000000000000000 && c1 <= 0x50000000000000000000000000000
             && c2 <= 0x50000000000000000000000000000 && c3 <= 0x50000000000000000000000000000
    requires c4 <= 0x50000000000000000000000000000 && c5 <= 0x50000000000000000000000000000
             && c6 <= 0x50000000000000000000000000000 && c7 <= 0x50000000000000000000000000000 && c8 <= 0x10000000000000000
    ensures Limbs(q1, 0x20000000000)
    ensures SVal(q1) == Wide(c0, c1, c2, c3, c4, c5, c6, c7, c8) / TWO248
  {
    hide SVal, Poly56, Wide;
    ghost var d0, f0 := c0 % 0x100000000000000, c0 / 0x100000000000000;
    var f: u64 := c0 / 0x100000000000000;
    var c: u128 := c1 + f;
    ghost var d1, f1 := c % 0x100000000000000, c / 0x100000000000000;
    f := c / 0x100000000000000;
    c := c2 + f;
    ghost var d2, f2 := c % 0x100000000000000, c / 0x100000000000000;
    f := c / 0x100000000000000;
    c := c3 + f;
    ghost var d3, f3 := c % 0x100000000000000, c / 0x100000000000000;
    f := c / 0x100000000000000;
    ghost var w4, w5, w6, w7, w8;
    var up, z0, z1, z2, z3, z4;
    up, z0, f, w4 := ColumnStep24(c4, f);
    ghost var f4, h4 := f, z0;
    up, z1, f, w5 := ColumnStep24(c5, f);
    ghost var f5, h5 := f, z1;
    z0 := z0 + up;
    up, z2, f, w6 := ColumnStep24(c6, f);
    ghost var f6, h6 := f, z2;
    z1 := z1 + up;
    up, z3, f, w7 := ColumnStep24(c7, f);
    ghost var f7, h7 := f, z3;
    z2 := z2 + up;
    up, z4, f, w8 := ColumnStep24(c8, f);
    ghost var f8, h8 := f, z4;
    z3 := z3 + up;
    z4 := z4 + f * 0x100000000;
    q1 := Scalar(z0, z1, z2, z3, z4);
    HighValue(c0, c1, c2, c3, c4, c5, c6, c7, c8, d0, d1, d2, d3, f0, f1, f2, f3, f4, f5, f6, f7, f8,
              h4, h5, h6, h7, h8, w4, w5, w6, w7, w8);
    SValIsPoly(q1);
    PolyBound248(d0, d1, d2, d3, w4);
    Quotient248(Wide(c0, c1, c2, c3, c4, c5, c6, c7, c8), SVal(q1), Poly56(d0, d1, d2, d3, w4));
  }

  lemma TopLimb(q: Scalar)
    requires Limbs(q, 0x20000000000) && SVal(q) < TWO264
    ensures Limbs(q, 0x10000000000)
  {}

  lemma ProductBelow512(x: Scalar, y: Scalar)
    requires Limbs(x, 0x100000000) && Limbs(y, 0x100000000)
    ensures 0 <= SVal(x) * SVal(y) < TWO512
  {
    assert 0 <= SVal(x) <= 0xffffffffffffffffffffffffffffffffffffffffffffffffffffffffffffffff
           && 0 <= SVal(y) <= 0xffffffffffffffffffffffffffffffffffffffffffffffffffffffffffffffff;
    MulBound(SVal(x), SVal(y), 0xffffffffffffffffffffffffffffffffffffffffffffffffffffffffffffffff,
             0xffffffffffffffffffffffffffffffffffffffffffffffffffffffffffffffff);
  }

  lemma Quotient264(x: int)
    requires 0 <= x < TWO512
    ensures x / TWO248 < TWO264
  {}

  /** The product modulo L of any two numbers below 2^256. */
  method Mul256(x: Scalar, y: Scalar) returns (r: Scalar)
    requires Limbs(x, 0x100000000) && Limbs(y, 0x100000000)
    ensures Limbs(r, 0x20000000)
    ensures SVal(r) == SVal(x) * SVal(y) % L
  {
    hide SVal, Poly56, Mul128, Wide;
    Products56();
    Products32();
    var c0: u128 := Mul128(x.l0, y.l0);
    var c1: u128 := Mul128(x.l0, y.l1) + Mul128(x.l1, y.l0);
    var c2: u128 := Mul128(x.l0, y.l2) + Mul128(x.l1, y.l1) + Mul128(x.l2, y.l0);
    var c3: u128 := Mul128(x.l0, y.l3) + Mul128(x.l1, y.l2) + Mul128(x.l2, y.l1) + Mul128(x.l3, y.l0);
    var c4: u128 := Mul128(x.l0, y.l4) + Mul128(x.l1, y.l3) + Mul128(x.l2, y.l2) + Mul128(x.l3, y.l1) + Mul128(x.l4, y.l0);
    var c5: u128 := Mul128(x.l1, y.l4) + Mul128(x.l2, y.l3) + Mul128(x.l3, y.l2) + Mul128(x.l4, y.l1);
    var c6: u128 := Mul128(x.l2, y.l4) + Mul128(x.l3, y.l3) + Mul128(x.l4, y.l2);
    var c7: u128 := Mul128(x.l3, y.l4) + Mul128(x.l4, y.l3);
    var c8: u128 := Mul128(x.l4, y.l4);
    var r1 := CarryLow(c0, c1, c2, c3, c4, c5, c6, c7, c8);
    var q1 := CarryHigh(c0, c1, c2, c3, c4, c5, c6, c7, c8);
    ProductColumns(x, y);
    ProductBelow512(x, y);
    Quotient264(SVal(x) * SVal(y));
    TopLimb(q1);
    r := Barrett(q1, r1, SVal(x) * SVal(y));
  }

  lemma Products32()
    ensures forall a: u64, b: u64 :: a <= 0x100000000 && b <= 0x100000000 ==> Mul128(a, b) <= 0x10000000000000000
  {
    forall a: u64, b: u64 | a <= 0x100000000 && b <= 0x100000000 ensures Mul128(a, b) <= 0x10000000000000000 {
      MulBound(a, b, 0x100000000, 0x100000000);
    }
  }
}
