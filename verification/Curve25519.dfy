/** Field elements in five 51-bit limbs (curve25519-donna-64bit.h). */
module Curve25519 {
  import opened Words
  import opened PrimeField

  datatype Fe = Fe(l0: u64, l1: u64, l2: u64, l3: u64, l4: u64)

  function Poly(l0: int, l1: int, l2: int, l3: int, l4: int): int {
    l0 + 0x8000000000000 * (l1 + 0x8000000000000 * (l2 + 0x8000000000000 * (l3 + 0x8000000000000 * l4)))
  }

  function Val(f: Fe): int {
    Poly(f.l0, f.l1, f.l2, f.l3, f.l4)
  }

  lemma ValIsPoly(f: Fe)
    ensures Val(f) == Poly(f.l0, f.l1, f.l2, f.l3, f.l4)
  {}

  predicate Below(f: Fe, n: int) {
    f.l0 < n && f.l1 < n && f.l2 < n && f.l3 < n && f.l4 < n
  }

  /** What a multiplication or squaring leaves behind. */
  predicate Reduced(f: Fe) {
    f.l0 < 0x8000000000000 && f.l1 < 0x8000000002000 && f.l2 < 0x8000000000000 && f.l3 < 0x8000000000000 &&
    f.l4 < 0x8000000000000
  }

  /** What every operation of the field layer leaves behind: limbs below 2^51 + 2^18. */
  predicate Tight(f: Fe) {
    Below(f, 0x8000000040000)
  }

  lemma Scale(c: int, s0: int, s1: int, s2: int, s3: int, s4: int)
    ensures c * Poly(s0, s1, s2, s3, s4) == Poly(c * s0, c * s1, c * s2, c * s3, c * s4)
  {
    var t3 := s3 + 0x8000000000000 * s4;
    assert c * t3 == c * s3 + 0x8000000000000 * (c * s4);
    var t2 := s2 + 0x8000000000000 * t3;
    assert c * t2 == c * s2 + 0x8000000000000 * (c * t3);
    var t1 := s1 + 0x8000000000000 * t2;
    assert c * t1 == c * s1 + 0x8000000000000 * (c * t2);
  }

  /** The schoolbook product folded at 2^255 = p + 19; linear in the partial products. */
  lemma Fold(p00: int, p01: int, p02: int, p03: int, p04: int,
             p10: int, p11: int, p12: int, p13: int, p14: int,
             p20: int, p21: int, p22: int, p23: int, p24: int,
             p30: int, p31: int, p32: int, p33: int, p34: int,
             p40: int, p41: int, p42: int, p43: int, p44: int)
    ensures Cong(Poly(p00 + 19 * (p41 + p14 + p23 + p32), p01 + p10 + 19 * (p42 + p24 + p33),
                      p02 + p20 + p11 + 19 * (p43 + p34), p03 + p30 + p12 + p21 + 19 * p44,
                      p04 + p40 + p31 + p13 + p22),
                 Poly(Poly(p00, p01, p02, p03, p04), Poly(p10, p11, p12, p13, p14), Poly(p20, p21, p22, p23, p24),
                      Poly(p30, p31, p32, p33, p34), Poly(p40, p41, p42, p43, p44)))
  {
    var h := Poly(p41 + p14 + p23 + p32, p42 + p24 + p33, p43 + p34, p44, 0);
    CongByMultiple(Poly(p00 + 19 * (p41 + p14 + p23 + p32), p01 + p10 + 19 * (p42 + p24 + p33),
                        p02 + p20 + p11 + 19 * (p43 + p34), p03 + p30 + p12 + p21 + 19 * p44,
                        p04 + p40 + p31 + p13 + p22),
                   Poly(Poly(p00, p01, p02, p03, p04), Poly(p10, p11, p12, p13, p14), Poly(p20, p21, p22, p23, p24),
                        Poly(p30, p31, p32, p33, p34), Poly(p40, p41, p42, p43, p44)), -h);
  }

  lemma Rows(r: Fe, s: Fe)
    ensures Val(r) * Val(s)
         == Poly(Row(r.l0, s), Row(r.l1, s), Row(r.l2, s), Row(r.l3, s), Row(r.l4, s))
  {
    hide *;
    Spread(r, Val(s));
    RowValue(r.l0, s);
    RowValue(r.l1, s);
    RowValue(r.l2, s);
    RowValue(r.l3, s);
    RowValue(r.l4, s);
  }

  lemma Spread(r: Fe, v: int)
    ensures Val(r) * v == Poly(r.l0 * v, r.l1 * v, r.l2 * v, r.l3 * v, r.l4 * v)
  {
    Scale(v, r.l0, r.l1, r.l2, r.l3, r.l4);
  }

  function Row(c: u64, s: Fe): int {
    Poly(Mul128(c, s.l0), Mul128(c, s.l1), Mul128(c, s.l2), Mul128(c, s.l3), Mul128(c, s.l4))
  }

  lemma RowValue(c: u64, s: Fe)
    ensures Row(c, s) == c as int * Val(s)
  {
    Scale(c, s.l0, s.l1, s.l2, s.l3, s.l4);
  }

  lemma Times(n: u64, a: u64, b: u64)
    requires a * n < 0x1_0000_0000_0000_0000
    ensures Mul128(a * n, b) == n * Mul128(a, b)
  {}

  /** What the ten column sums of `curve25519_mul` add up to. */
  lemma MulValue(r: Fe, s: Fe)
    requires Below(r, 0x40000000000000)
    ensures Cong(Poly(Mul128(r.l0, s.l0)
                      + (Mul128(r.l4 * 19, s.l1) + Mul128(r.l1 * 19, s.l4) + Mul128(r.l2 * 19, s.l3) + Mul128(r.l3 * 19, s.l2)),
                      Mul128(r.l0, s.l1) + Mul128(r.l1, s.l0)
                          + (Mul128(r.l4 * 19, s.l2) + Mul128(r.l2 * 19, s.l4) + Mul128(r.l3 * 19, s.l3)),
                      Mul128(r.l0, s.l2) + Mul128(r.l2, s.l0) + Mul128(r.l1, s.l1)
                          + (Mul128(r.l4 * 19, s.l3) + Mul128(r.l3 * 19, s.l4)),
                      Mul128(r.l0, s.l3) + Mul128(r.l3, s.l0) + Mul128(r.l1, s.l2) + Mul128(r.l2, s.l1)
                          + Mul128(r.l4 * 19, s.l4),
                      Mul128(r.l0, s.l4) + Mul128(r.l4, s.l0) + Mul128(r.l3, s.l1) + Mul128(r.l1, s.l3) + Mul128(r.l2, s.l2)),
                 Val(r) * Val(s))
  {
    hide Cong, Val, Poly, Mul128;
    Rows(r, s);
    Fold(Mul128(r.l0, s.l0), Mul128(r.l0, s.l1), Mul128(r.l0, s.l2), Mul128(r.l0, s.l3), Mul128(r.l0, s.l4),
         Mul128(r.l1, s.l0), Mul128(r.l1, s.l1), Mul128(r.l1, s.l2), Mul128(r.l1, s.l3), Mul128(r.l1, s.l4),
         Mul128(r.l2, s.l0), Mul128(r.l2, s.l1), Mul128(r.l2, s.l2), Mul128(r.l2, s.l3), Mul128(r.l2, s.l4),
         Mul128(r.l3, s.l0), Mul128(r.l3, s.l1), Mul128(r.l3, s.l2), Mul128(r.l3, s.l3), Mul128(r.l3, s.l4),
         Mul128(r.l4, s.l0), Mul128(r.l4, s.l1), Mul128(r.l4, s.l2), Mul128(r.l4, s.l3), Mul128(r.l4, s.l4));
    Times(19, r.l4, s.l1);
    Times(19, r.l1, s.l4);
    Times(19, r.l2, s.l3);
    Times(19, r.l3, s.l2);
    Times(19, r.l4, s.l2);
    Times(19, r.l2, s.l4);
    Times(19, r.l3, s.l3);
    Times(19, r.l4, s.l3);
    Times(19, r.l3, s.l4);
    Times(19, r.l4, s.l4);
  }

  /** Carrying limb by limb, with the top carry coming back multiplied by 19, keeps the value mod p. */
  lemma CarryValue(x0: int, x1: int, x2: int, x3: int, x4: int, c0: int, c1: int, c2: int, c3: int, c4: int, c5: int)
    ensures Cong(Poly(x0 - 0x8000000000000 * c0 + 19 * c4 - 0x8000000000000 * c5,
                      x1 + c0 - 0x8000000000000 * c1 + c5,
                      x2 + c1 - 0x8000000000000 * c2,
                      x3 + c2 - 0x8000000000000 * c3,
                      x4 + c3 - 0x8000000000000 * c4),
                 Poly(x0, x1, x2, x3, x4))
  {
    CongByMultiple(Poly(x0 - 0x8000000000000 * c0 + 19 * c4 - 0x8000000000000 * c5,
                      x1 + c0 - 0x8000000000000 * c1 + c5,
                      x2 + c1 - 0x8000000000000 * c2,
                      x3 + c2 - 0x8000000000000 * c3,
                      x4 + c3 - 0x8000000000000 * c4),
                 Poly(x0, x1, x2, x3, x4), -c4);
  }

  /**
   The carry chain that ends `curve25519_mul` and `curve25519_square`: `lo128(t) & mask` is `t % 2^51`
   and `shr128(c, t, 51)` is `t / 2^51`, kept in 64 bits.
   */
  method Carry(x0: u128, x1: u128, x2: u128, x3: u128, x4: u128) returns (out: Fe)
    requires x0 <= 77 * 0x1000000000000000000000000000
    requires x1 <= 77 * 0x1000000000000000000000000000
    requires x2 <= 77 * 0x1000000000000000000000000000
    requires x3 <= 77 * 0x1000000000000000000000000000
    requires x4 <= 5 * 0x1000000000000000000000000000
    ensures Reduced(out) && Tight(out)
    ensures Cong(Val(out), Poly(x0, x1, x2, x3, x4))
  {
    hide Cong, Val, Poly;
    var t0, t1, t2, t3, t4 := x0, x1, x2, x3, x4;
    var r0: u64 := t0 % 0x8000000000000;
    var c: u64 := t0 / 0x8000000000000;
    ghost var c0 := c;
    t1 := t1 + c;
    var r1: u64 := t1 % 0x8000000000000;
    c := t1 / 0x8000000000000;
    ghost var c1 := c;
    t2 := t2 + c;
    var r2: u64 := t2 % 0x8000000000000;
    c := t2 / 0x8000000000000;
    ghost var c2 := c;
    t3 := t3 + c;
    var r3: u64 := t3 % 0x8000000000000;
    c := t3 / 0x8000000000000;
    ghost var c3 := c;
    t4 := t4 + c;
    var r4: u64 := t4 % 0x8000000000000;
    c := t4 / 0x8000000000000;
    ghost var c4 := c;
    r0 := r0 + c * 19;
    c := r0 / 0x8000000000000;
    r0 := r0 % 0x8000000000000;
    r1 := r1 + c;
    out := Fe(r0, r1, r2, r3, r4);
    CarryValue(x0, x1, x2, x3, x4, c0, c1, c2, c3, c4, c);
    ValIsPoly(out);
  }

  lemma Products()
    ensures forall a: u64, b: u64 :: a <= 0x40000000000000 && b <= 0x40000000000000
              ==> Mul128(a, b) <= 0x1000000000000000000000000000
    ensures forall a: u64, b: u64 :: a <= 2 * 0x40000000000000 && b <= 0x40000000000000
              ==> Mul128(a, b) <= 2 * 0x1000000000000000000000000000
    ensures forall a: u64, b: u64 :: a <= 19 * 0x40000000000000 && b <= 0x40000000000000
              ==> Mul128(a, b) <= 19 * 0x1000000000000000000000000000
    ensures forall a: u64, b: u64 :: a <= 38 * 0x40000000000000 && b <= 0x40000000000000
              ==> Mul128(a, b) <= 38 * 0x1000000000000000000000000000
  {
    forall a: u64, b: u64 | a <= 0x40000000000000 && b <= 0x40000000000000
      ensures Mul128(a, b) <= 0x1000000000000000000000000000
    {
      MulBound(a, b, 0x40000000000000, 0x40000000000000);
    }
    forall a: u64, b: u64 | a <= 2 * 0x40000000000000 && b <= 0x40000000000000
      ensures Mul128(a, b) <= 2 * 0x1000000000000000000000000000
    {
      MulBound(a, b, 2 * 0x40000000000000, 0x40000000000000);
    }
    forall a: u64, b: u64 | a <= 19 * 0x40000000000000 && b <= 0x40000000000000
      ensures Mul128(a, b) <= 19 * 0x1000000000000000000000000000
    {
      MulBound(a, b, 19 * 0x40000000000000, 0x40000000000000);
    }
    forall a: u64, b: u64 | a <= 38 * 0x40000000000000 && b <= 0x40000000000000
      ensures Mul128(a, b) <= 38 * 0x1000000000000000000000000000
    {
      MulBound(a, b, 38 * 0x40000000000000, 0x40000000000000);
    }
  }

  method Mul(in2: Fe, in1: Fe) returns (out: Fe)
    requires Below(in2, 0x40000000000000) && Below(in1, 0x40000000000000)
    ensures Reduced(out) && Tight(out)
    ensures Cong(Val(out), Val(in2) * Val(in1))
  {
    hide Cong, Val, Poly, Mul128;
    Products();
    var r0, r1, r2, r3, r4 := in1.l0, in1.l1, in1.l2, in1.l3, in1.l4;
    var s0, s1, s2, s3, s4 := in2.l0, in2.l1, in2.l2, in2.l3, in2.l4;
    var t0: u128 := Mul128(r0, s0);
    var t1: u128 := Mul128(r0, s1) + Mul128(r1, s0);
    var t2: u128 := Mul128(r0, s2) + Mul128(r2, s0) + Mul128(r1, s1);
    var t3: u128 := Mul128(r0, s3) + Mul128(r3, s0) + Mul128(r1, s2) + Mul128(r2, s1);
    var t4: u128 := Mul128(r0, s4) + Mul128(r4, s0) + Mul128(r3, s1) + Mul128(r1, s3) + Mul128(r2, s2);
    r1 := r1 * 19;
    r2 := r2 * 19;
    r3 := r3 * 19;
    r4 := r4 * 19;
    t0 := t0 + (Mul128(r4, s1) + Mul128(r1, s4) + Mul128(r2, s3) + Mul128(r3, s2));
    t1 := t1 + (Mul128(r4, s2) + Mul128(r2, s4) + Mul128(r3, s3));
    t2 := t2 + (Mul128(r4, s3) + Mul128(r3, s4));
    t3 := t3 + Mul128(r4, s4);
    out := Carry(t0, t1, t2, t3, t4);
    MulValue(in1, in2);
    CongTrans(Val(out), Poly(t0, t1, t2, t3, t4), Val(in1) * Val(in2));
  }

  lemma Swap(a: u64, b: u64)
    ensures Mul128(a, b) == Mul128(b, a)
  {}

  lemma TimesRight(n: u64, a: u64, b: u64)
    requires b * n < 0x1_0000_0000_0000_0000
    ensures Mul128(a, b * n) == n * Mul128(a, b)
  {}

  /** Squaring with doubled limbs gives the columns of a multiplication by itself. */
  lemma SquareValue(r: Fe)
    requires Below(r, 0x40000000000000)
    ensures Cong(Poly(Mul128(r.l0, r.l0) + Mul128(r.l4 * 19 * 2, r.l1) + Mul128(r.l2 * 2 * 19, r.l3),
                      Mul128(r.l0 * 2, r.l1) + Mul128(r.l4 * 19 * 2, r.l2) + Mul128(r.l3, r.l3 * 19),
                      Mul128(r.l0 * 2, r.l2) + Mul128(r.l1, r.l1) + Mul128(r.l4 * 19 * 2, r.l3),
                      Mul128(r.l0 * 2, r.l3) + Mul128(r.l1 * 2, r.l2) + Mul128(r.l4, r.l4 * 19),
                      Mul128(r.l0 * 2, r.l4) + Mul128(r.l1 * 2, r.l3) + Mul128(r.l2, r.l2)),
                 Val(r) * Val(r))
  {
    hide Cong, Val, Poly, Mul128;
    Rows(r, r);
    Fold(Mul128(r.l0, r.l0), Mul128(r.l0, r.l1), Mul128(r.l0, r.l2), Mul128(r.l0, r.l3), Mul128(r.l0, r.l4),
         Mul128(r.l1, r.l0), Mul128(r.l1, r.l1), Mul128(r.l1, r.l2), Mul128(r.l1, r.l3), Mul128(r.l1, r.l4),
         Mul128(r.l2, r.l0), Mul128(r.l2, r.l1), Mul128(r.l2, r.l2), Mul128(r.l2, r.l3), Mul128(r.l2, r.l4),
         Mul128(r.l3, r.l0), Mul128(r.l3, r.l1), Mul128(r.l3, r.l2), Mul128(r.l3, r.l3), Mul128(r.l3, r.l4),
         Mul128(r.l4, r.l0), Mul128(r.l4, r.l1), Mul128(r.l4, r.l2), Mul128(r.l4, r.l3), Mul128(r.l4, r.l4));
    Swap(r.l1, r.l0);
    Swap(r.l2, r.l0);
    Swap(r.l2, r.l1);
    Swap(r.l3, r.l0);
    Swap(r.l3, r.l1);
    Swap(r.l3, r.l2);
    Swap(r.l4, r.l0);
    Swap(r.l4, r.l1);
    Swap(r.l4, r.l2);
    Swap(r.l4, r.l3);
    Times(38, r.l4, r.l1);
    Times(38, r.l2, r.l3);
    Times(2, r.l0, r.l1);
    Times(38, r.l4, r.l2);
    TimesRight(19, r.l3, r.l3);
    Times(2, r.l0, r.l2);
    Times(38, r.l4, r.l3);
    Times(2, r.l0, r.l3);
    Times(2, r.l1, r.l2);
    TimesRight(19, r.l4, r.l4);
    Times(2, r.l0, r.l4);
    Times(2, r.l1, r.l3);
  }

  method Square(in1: Fe) returns (out: Fe)
    requires Below(in1, 0x40000000000000)
    ensures Reduced(out) && Tight(out)
    ensures Cong(Val(out), Val(in1) * Val(in1))
  {
    hide Cong, Val, Poly, Mul128;
    Products();
    var r0, r1, r2, r3, r4 := in1.l0, in1.l1, in1.l2, in1.l3, in1.l4;
    var d0: u64 := r0 * 2;
    var d1: u64 := r1 * 2;
    var d2: u64 := r2 * 2 * 19;
    var d419: u64 := r4 * 19;
    var d4: u64 := d419 * 2;
    Swap(r3, r3 * 19);
    Swap(r4, d419);
    var t0: u128 := Mul128(r0, r0) + Mul128(d4, r1) + Mul128(d2, r3);
    var t1: u128 := Mul128(d0, r1) + Mul128(d4, r2) + Mul128(r3, r3 * 19);
    var t2: u128 := Mul128(d0, r2) + Mul128(r1, r1) + Mul128(d4, r3);
    var t3: u128 := Mul128(d0, r3) + Mul128(d1, r2) + Mul128(r4, d419);
    var t4: u128 := Mul128(d0, r4) + Mul128(d1, r3) + Mul128(r2, r2);
    out := Carry(t0, t1, t2, t3, t4);
    SquareValue(in1);
    CongTrans(Val(out), Poly(t0, t1, t2, t3, t4), Val(in1) * Val(in1));
  }

  /** `shl128(c, t, 13)`: the top word of `t << 13`, with `t << 13` itself truncated to 128 bits. */
  function Shl13(t: u128): u64 {
    t * 0x2000 % 0x1_0000_0000_0000_0000_0000_0000_0000_0000 / 0x1_0000_0000_0000_0000
  }

  lemma Shl13IsShr51(t: u128)
    requires t <= 77 * 0x1000000000000000000000000000
    ensures Shl13(t) == t / 0x8000000000000
  {}

  /** The carry pass inside `curve25519_square_times`: all columns carry at once, then a rippling pass. */
  method CarryRound(t0: u128, t1: u128, t2: u128, t3: u128, t4: u128) returns (out: Fe)
    requires t0 <= 77 * 0x1000000000000000000000000000
    requires t1 <= 77 * 0x1000000000000000000000000000
    requires t2 <= 77 * 0x1000000000000000000000000000
    requires t3 <= 77 * 0x1000000000000000000000000000
    requires t4 <= 5 * 0x1000000000000000000000000000
    ensures Tight(out)
    ensures Cong(Val(out), Poly(t0, t1, t2, t3, t4))
  {
    hide Shl13, Cong, Val, Poly;
    Shl13IsShr51(t0);
    Shl13IsShr51(t1);
    Shl13IsShr51(t2);
    Shl13IsShr51(t3);
    Shl13IsShr51(t4);
    var r0: u64 := t0 % 0x8000000000000;
    var r1: u64 := t1 % 0x8000000000000 + Shl13(t0);
    var r2: u64 := t2 % 0x8000000000000 + Shl13(t1);
    var r3: u64 := t3 % 0x8000000000000 + Shl13(t2);
    var r4: u64 := t4 % 0x8000000000000 + Shl13(t3);
    r0 := r0 + Shl13(t4) * 19;
    CarryValue(t0, t1, t2, t3, t4, Shl13(t0), Shl13(t1), Shl13(t2), Shl13(t3), Shl13(t4), 0);
    out := CarryRipple(r0, r1, r2, r3, r4);
    CongTrans(Val(out), Poly(r0, r1, r2, r3, r4), Poly(t0, t1, t2, t3, t4));
  }

  method CarryRipple(x0: u64, x1: u64, x2: u64, x3: u64, x4: u64) returns (out: Fe)
    requires x1 < 0xf000000000000000 && x2 < 0xf000000000000000
    requires x3 < 0xf000000000000000 && x4 < 0xf000000000000000
    ensures Tight(out)
    ensures Cong(Val(out), Poly(x0, x1, x2, x3, x4))
  {
    hide Cong, Val, Poly;
    var r0, r1, r2, r3, r4 := x0, x1, x2, x3, x4;
    var c := r0 / 0x8000000000000;
    r0 := r0 % 0x8000000000000;
    ghost var c0 := c;
    r1 := r1 + c;
    c := r1 / 0x8000000000000;
    r1 := r1 % 0x8000000000000;
    ghost var c1 := c;
    r2 := r2 + c;
    c := r2 / 0x8000000000000;
    r2 := r2 % 0x8000000000000;
    ghost var c2 := c;
    r3 := r3 + c;
    c := r3 / 0x8000000000000;
    r3 := r3 % 0x8000000000000;
    ghost var c3 := c;
    r4 := r4 + c;
    c := r4 / 0x8000000000000;
    r4 := r4 % 0x8000000000000;
    r0 := r0 + c * 19;
    out := Fe(r0, r1, r2, r3, r4);
    CarryValue(x0, x1, x2, x3, x4, c0, c1, c2, c3, c, 0);
    ValIsPoly(out);
  }

  /** `out = in1^(2^count)`. */
  method SquareTimes(in1: Fe, count: u64) returns (out: Fe)
    requires count > 0
    requires Below(in1, 0x40000000000000)
    ensures Tight(out)
    ensures Cong(Val(out), Pow(Val(in1), Pow2(count)))
  {
    hide Cong, Val, Poly, Mul128, Pow;
    Products();
    var n := count;
    var r := in1;
    PowBase(Val(in1));
    while true
      invariant 0 < n <= count
      invariant Below(r, 0x40000000000000)
      invariant Cong(Val(r), Pow(Val(in1), Pow2(count - n)))
      decreases n
    {
      var r0, r1, r2, r3, r4 := r.l0, r.l1, r.l2, r.l3, r.l4;
      var d0: u64 := r0 * 2;
      var d1: u64 := r1 * 2;
      var d2: u64 := r2 * 2 * 19;
      var d419: u64 := r4 * 19;
      var d4: u64 := d419 * 2;
      Swap(r3, r3 * 19);
      Swap(r4, d419);
      var t0: u128 := Mul128(r0, r0) + Mul128(d4, r1) + Mul128(d2, r3);
      var t1: u128 := Mul128(d0, r1) + Mul128(d4, r2) + Mul128(r3, r3 * 19);
      var t2: u128 := Mul128(d0, r2) + Mul128(r1, r1) + Mul128(d4, r3);
      var t3: u128 := Mul128(d0, r3) + Mul128(d1, r2) + Mul128(r4, d419);
      var t4: u128 := Mul128(d0, r4) + Mul128(d1, r3) + Mul128(r2, r2);
      SquareValue(r);
      out := CarryRound(t0, t1, t2, t3, t4);
      CongTrans(Val(out), Poly(t0, t1, t2, t3, t4), Val(r) * Val(r));
      PowSquared(Val(in1), Val(r), Val(out), count - n);
      r := out;
      n := n - 1;
      if n == 0 {
        return;
      }
    }
  }

  lemma PowBase(b: int)
    ensures Cong(b, Pow(b, Pow2(0)))
  {
    hide Cong;
    assert Pow(b, 1) == b * Pow(b, 0);
    CongRefl(b);
  }

  lemma PowSquared(b: int, r: int, s: int, k: nat)
    requires Cong(r, Pow(b, Pow2(k))) && Cong(s, r * r)
    ensures Cong(s, Pow(b, Pow2(k + 1)))
  {
    CongMul(r, Pow(b, Pow2(k)), r, Pow(b, Pow2(k)));
    PowAdd(b, Pow2(k), Pow2(k));
    CongTrans(s, r * r, Pow(b, Pow2(k + 1)));
  }

  /** The multiples of p that keep a subtraction of limbs from going below zero. */
  const TWO_P := Fe(0x0fffffffffffda, 0x0ffffffffffffe, 0x0ffffffffffffe, 0x0ffffffffffffe, 0x0ffffffffffffe)
  const FOUR_P := Fe(0x1fffffffffffb4, 0x1ffffffffffffc, 0x1ffffffffffffc, 0x1ffffffffffffc, 0x1ffffffffffffc)

  lemma MultiplesOfP()
    ensures Val(TWO_P) == 2 * P && Val(FOUR_P) == 4 * P
  {}

  lemma DifferenceValue(a: Fe, k: Fe, b: Fe, out: Fe)
    requires out.l0 == a.l0 + k.l0 - b.l0 && out.l1 == a.l1 + k.l1 - b.l1 && out.l2 == a.l2 + k.l2 - b.l2
    requires out.l3 == a.l3 + k.l3 - b.l3 && out.l4 == a.l4 + k.l4 - b.l4
    ensures Val(out) == Val(a) + Val(k) - Val(b)
  {}

  const ZERO := Fe(0, 0, 0, 0, 0)
  const ONE := Fe(1, 0, 0, 0, 0)

  lemma ValZero()
    ensures Val(ZERO) == 0 && Val(ONE) == 1
  {
    PolyConstant(0);
    PolyConstant(1);
  }

  lemma PolyConstant(n: u64)
    ensures Val(Fe(n, 0, 0, 0, 0)) == n
  {}

  /** No limb of `a + k - b` is negative. */
  predicate Covers(a: Fe, k: Fe, b: Fe) {
    b.l0 <= a.l0 + k.l0 && b.l1 <= a.l1 + k.l1 && b.l2 <= a.l2 + k.l2 && b.l3 <= a.l3 + k.l3 && b.l4 <= a.l4 + k.l4
  }

  /** `curve25519_add` and `curve25519_add_after_basic`, which are the same code. */
  method Add(a: Fe, b: Fe) returns (out: Fe)
    requires Below(a, 0x8000000000000000) && Below(b, 0x8000000000000000)
    ensures Val(out) == Val(a) + Val(b)
    ensures forall m, n :: Below(a, m) && Below(b, n) ==> Below(out, m + n)
  {
    var o0: u64 := a.l0 + b.l0;
    var o1: u64 := a.l1 + b.l1;
    var o2: u64 := a.l2 + b.l2;
    var o3: u64 := a.l3 + b.l3;
    var o4: u64 := a.l4 + b.l4;
    out := Fe(o0, o1, o2, o3, o4);
  }

  method AddReduce(a: Fe, b: Fe) returns (out: Fe)
    requires Below(a, 0x7000000000000000) && Below(b, 0x7000000000000000)
    ensures Tight(out)
    ensures Cong(Val(out), Val(a) + Val(b))
  {
    hide Cong;
    out := CarryRipple(a.l0 + b.l0, a.l1 + b.l1, a.l2 + b.l2, a.l3 + b.l3, a.l4 + b.l4);
  }

  method Sub(a: Fe, b: Fe) returns (out: Fe)
    requires Below(a, 0x8000000000000000) && Covers(a, TWO_P, b)
    ensures Cong(Val(out), Val(a) - Val(b))
    ensures forall m :: Below(a, m) ==> Below(out, m + 0x10000000000000)
  {
    var o0: u64 := a.l0 + 0x0fffffffffffda - b.l0;
    var o1: u64 := a.l1 + 0x0ffffffffffffe - b.l1;
    var o2: u64 := a.l2 + 0x0ffffffffffffe - b.l2;
    var o3: u64 := a.l3 + 0x0ffffffffffffe - b.l3;
    var o4: u64 := a.l4 + 0x0ffffffffffffe - b.l4;
    out := Fe(o0, o1, o2, o3, o4);
    hide Val, Cong;
    DifferenceValue(a, TWO_P, b, out);
    MultiplesOfP();
    CongByMultiple(Val(out), Val(a) - Val(b), 2);
  }

  method SubAfterBasic(a: Fe, b: Fe) returns (out: Fe)
    requires Below(a, 0x8000000000000000) && Covers(a, FOUR_P, b)
    ensures Cong(Val(out), Val(a) - Val(b))
    ensures forall m :: Below(a, m) ==> Below(out, m + 0x20000000000000)
  {
    var o0: u64 := a.l0 + 0x1fffffffffffb4 - b.l0;
    var o1: u64 := a.l1 + 0x1ffffffffffffc - b.l1;
    var o2: u64 := a.l2 + 0x1ffffffffffffc - b.l2;
    var o3: u64 := a.l3 + 0x1ffffffffffffc - b.l3;
    var o4: u64 := a.l4 + 0x1ffffffffffffc - b.l4;
    out := Fe(o0, o1, o2, o3, o4);
    hide Val, Cong;
    DifferenceValue(a, FOUR_P, b, out);
    MultiplesOfP();
    CongByMultiple(Val(out), Val(a) - Val(b), 4);
  }

  method SubReduce(a: Fe, b: Fe) returns (out: Fe)
    requires Below(a, 0x8000000000000000) && Covers(a, FOUR_P, b)
    ensures Tight(out)
    ensures Cong(Val(out), Val(a) - Val(b))
  {
    hide Cong, Val, Poly;
    var d := SubAfterBasic(a, b);
    ValIsPoly(d);
    assert Below(d, 0x8020000000000000);
    out := CarryRipple(d.l0, d.l1, d.l2, d.l3, d.l4);
    CongTrans(Val(out), Val(d), Val(a) - Val(b));
  }

  method Neg(a: Fe) returns (out: Fe)
    requires Covers(ZERO, TWO_P, a)
    ensures Tight(out)
    ensures Cong(Val(out), -Val(a))
  {
    hide Cong, Val, Poly;
    var d := Sub(ZERO, a);
    assert Below(ZERO, 1);
    assert Val(ZERO) == 0 by {
      ValZero();
    }
    ValIsPoly(d);
    out := CarryRipple(d.l0, d.l1, d.l2, d.l3, d.l4);
    CongTrans(Val(out), Val(d), -Val(a));
  }
}
