/** Scalars to and from little-endian bytes (modm-donna-64bit.h). */
module ScalarBytes {
  import opened Words
  import opened Bytes
  import opened ScalarModM

  lemma MaskTo40(x: int, q: int, r: int)
    requires x == 0x10000000000 * q + r && 0 <= r < 0x10000000000
    ensures x % 0x10000000000 == r
  {}

  // Each limb spliced from two words is the top of one and the bottom of the next.

  lemma Splice8With(t: int, a: int, b: int, c: int, hi: int)
    requires hi == a + 0x1000000000000 * (b + 0x100 * c) && 0 <= a < 0x1000000000000 && 0 <= b < 0x100 && 0 <= c
             && 0 <= t < 0x100
    ensures (t + hi * 0x100 % 0x10000000000000000) % 0x100000000000000 == t + 0x100 * a
  {
    Mod64(hi * 0x100, c, 0x100 * a + 0x100000000000000 * b);
    Mod56(t + 0x100 * a + 0x100000000000000 * b, b, t + 0x100 * a);
  }

  lemma Splice8(lo: u64, hi: u64)
    ensures (lo / 0x100000000000000 + hi as int * 0x100 % 0x10000000000000000) % 0x100000000000000
         == lo / 0x100000000000000 + 0x100 * (hi % 0x1000000000000)
  {
    var h := hi / 0x1000000000000;
    Splice8With(lo / 0x100000000000000, hi % 0x1000000000000, h % 0x100, h / 0x100, hi);
  }

  lemma Splice16With(t: int, a: int, b: int, c: int, hi: int)
    requires hi == a + 0x10000000000 * (b + 0x100 * c) && 0 <= a < 0x10000000000 && 0 <= b < 0x100 && 0 <= c && 0 <= t < 0x10000
    ensures (t + hi * 0x10000 % 0x10000000000000000) % 0x100000000000000 == t + 0x10000 * a
  {
    Mod64(hi * 0x10000, c, 0x10000 * a + 0x100000000000000 * b);
    Mod56(t + 0x10000 * a + 0x100000000000000 * b, b, t + 0x10000 * a);
  }

  lemma Splice16(lo: u64, hi: u64)
    ensures (lo / 0x1000000000000 + hi as int * 0x10000 % 0x10000000000000000) % 0x100000000000000
         == lo / 0x1000000000000 + 0x10000 * (hi % 0x10000000000)
  {
    var h := hi / 0x10000000000;
    Splice16With(lo / 0x1000000000000, hi % 0x10000000000, h % 0x100, h / 0x100, hi);
  }

  lemma Splice24With(t: int, a: int, b: int, c: int, hi: int)
    requires hi == a + 0x100000000 * (b + 0x100 * c) && 0 <= a < 0x100000000 && 0 <= b < 0x100 && 0 <= c && 0 <= t < 0x1000000
    ensures (t + hi * 0x1000000 % 0x10000000000000000) % 0x100000000000000 == t + 0x1000000 * a
  {
    Mod64(hi * 0x1000000, c, 0x1000000 * a + 0x100000000000000 * b);
    Mod56(t + 0x1000000 * a + 0x100000000000000 * b, b, t + 0x1000000 * a);
  }

  lemma Splice24(lo: u64, hi: u64)
    ensures (lo / 0x10000000000 + hi as int * 0x1000000 % 0x10000000000000000) % 0x100000000000000
         == lo / 0x10000000000 + 0x1000000 * (hi % 0x100000000)
  {
    var h := hi / 0x100000000;
    Splice24With(lo / 0x10000000000, hi % 0x100000000, h % 0x100, h / 0x100, hi);
  }

  lemma Splice32With(t: int, a: int, b: int, c: int, hi: int)
    requires hi == a + 0x1000000 * (b + 0x100 * c) && 0 <= a < 0x1000000 && 0 <= b < 0x100 && 0 <= c && 0 <= t < 0x100000000
    ensures (t + hi * 0x100000000 % 0x10000000000000000) % 0x100000000000000 == t + 0x100000000 * a
  {
    Mod64(hi * 0x100000000, c, 0x100000000 * a + 0x100000000000000 * b);
    Mod56(t + 0x100000000 * a + 0x100000000000000 * b, b, t + 0x100000000 * a);
  }

  lemma Splice32(lo: u64, hi: u64)
    ensures (lo / 0x100000000 + hi as int * 0x100000000 % 0x10000000000000000) % 0x100000000000000
         == lo / 0x100000000 + 0x100000000 * (hi % 0x1000000)
  {
    var h := hi / 0x1000000;
    Splice32With(lo / 0x100000000, hi % 0x1000000, h % 0x100, h / 0x100, hi);
  }

  lemma Splice32TopWith(t: int, a: int, b: int, c: int, hi: int)
    requires hi == a + 0x100 * (b + 0x1000000 * c) && 0 <= a < 0x100 && 0 <= b < 0x1000000 && 0 <= c && 0 <= t < 0x100000000
    ensures (t + hi * 0x100000000 % 0x10000000000000000) % 0x10000000000 == t + 0x100000000 * a
  {
    Mod64(hi * 0x100000000, c, 0x100000000 * a + 0x10000000000 * b);
    MaskTo40(t + 0x100000000 * a + 0x10000000000 * b, b, t + 0x100000000 * a);
  }

  lemma Splice32Top(lo: u64, hi: u64)
    ensures (lo / 0x100000000 + hi as int * 0x100000000 % 0x10000000000000000) % 0x10000000000
         == lo / 0x100000000 + 0x100000000 * (hi % 0x100)
  {
    var h := hi / 0x100;
    Splice32TopWith(lo / 0x100000000, hi % 0x100, h % 0x1000000, h / 0x1000000, hi);
  }

  /** The value of eight 64-bit words. */
  function Poly512(x0: int, x1: int, x2: int, x3: int, x4: int, x5: int, x6: int, x7: int): int {
    x0 + 0x10000000000000000 * (x1 + 0x10000000000000000 * (x2 + 0x10000000000000000 * (x3
    + 0x10000000000000000 * (x4 + 0x10000000000000000 * (x5 + 0x10000000000000000 * (x6 + 0x10000000000000000 * x7))))))
  }

  lemma LowLimbs(x0: int, x1: int, x2: int, x3: int, x4: int, x5: int, x6: int, x7: int,
                 q0: int, q1: int, q2: int, q3: int, q4: int)
    ensures Poly512(x0, x1, x2, x3, x4, x5, x6, x7)
         == Poly56(x0 - 0x100000000000000 * q0, q0 + 0x100 * (x1 - 0x1000000000000 * q1),
                   q1 + 0x10000 * (x2 - 0x10000000000 * q2),
                   q2 + 0x1000000 * (x3 - 0x100000000 * q3), q3 + 0x100000000 * (x4 - 0x100 * q4))
            + TWO264 * (q4 + 0x100000000000000 * (x5 + 0x10000000000000000 * (x6 + 0x10000000000000000 * x7)))
  {}

  lemma HighLimbs(x0: int, x1: int, x2: int, x3: int, x4: int, x5: int, x6: int, x7: int,
                  q3: int, q4: int, q5: int, q6: int, q7: int)
    ensures Poly512(x0, x1, x2, x3, x4, x5, x6, x7)
         == TWO248 * Poly56(q3 + 0x100 * (x4 - 0x1000000000000 * q4), q4 + 0x10000 * (x5 - 0x10000000000 * q5),
                      q5 + 0x1000000 * (x6 - 0x100000000 * q6), q6 + 0x100000000 * (x7 - 0x1000000 * q7), q7)
            + (x0 + 0x10000000000000000 * (x1 +
               0x10000000000000000 * (x2 + 0x10000000000000000 * (x3 - 0x100000000000000 * q3))))
  {}

  /** The low 264 bits of eight words, in 56-bit limbs. */
  method LowFromWords(x0: u64, x1: u64, x2: u64, x3: u64, x4: u64, ghost x5: u64, ghost x6: u64, ghost x7: u64)
    returns (out: Scalar)
    ensures Limbs(out, 0x10000000000)
    ensures SVal(out) == Poly512(x0, x1, x2, x3, x4, x5, x6, x7) % TWO264
  {
    hide SVal, Poly56, Poly512;
    Splice8(x0, x1);
    Splice16(x1, x2);
    Splice24(x2, x3);
    Splice32Top(x3, x4);
    var o0: u64 := x0 % 0x100000000000000;
    var o1: u64 := (x0 / 0x100000000000000 + x1 as int * 0x100 % 0x10000000000000000) % 0x100000000000000;
    var o2: u64 := (x1 / 0x1000000000000 + x2 as int * 0x10000 % 0x10000000000000000) % 0x100000000000000;
    var o3: u64 := (x2 / 0x10000000000 + x3 as int * 0x1000000 % 0x10000000000000000) % 0x100000000000000;
    var o4: u64 := (x3 / 0x100000000 + x4 as int * 0x100000000 % 0x10000000000000000) % 0x10000000000;
    out := Scalar(o0, o1, o2, o3, o4);
    LowLimbs(x0, x1, x2, x3, x4, x5, x6, x7, x0 / 0x100000000000000, x1 / 0x1000000000000, x2 / 0x10000000000, x3 / 0x100000000,
             x4 / 0x100);
    SValIsPoly(out);
    SValBound(out);
    Remainder264(Poly512(x0, x1, x2, x3, x4, x5, x6, x7),
                 x4 / 0x100 + 0x100000000000000 * (x5 + 0x10000000000000000 * (x6 + 0x10000000000000000 * x7)), SVal(out));
  }

  /** The bits of eight words from 248 up, in 56-bit limbs. */
  method HighFromWords(ghost x0: u64, ghost x1: u64, ghost x2: u64, x3: u64, x4: u64, x5: u64, x6: u64, x7: u64)
    returns (q1: Scalar)
    ensures Limbs(q1, 0x10000000000)
    ensures SVal(q1) == Poly512(x0, x1, x2, x3, x4, x5, x6, x7) / TWO248
  {
    hide SVal, Poly56, Poly512;
    Splice8(x3, x4);
    Splice16(x4, x5);
    Splice24(x5, x6);
    Splice32(x6, x7);
    var o0: u64 := (x3 / 0x100000000000000 + x4 as int * 0x100 % 0x10000000000000000) % 0x100000000000000;
    var o1: u64 := (x4 / 0x1000000000000 + x5 as int * 0x10000 % 0x10000000000000000) % 0x100000000000000;
    var o2: u64 := (x5 / 0x10000000000 + x6 as int * 0x1000000 % 0x10000000000000000) % 0x100000000000000;
    var o3: u64 := (x6 / 0x100000000 + x7 as int * 0x100000000 % 0x10000000000000000) % 0x100000000000000;
    var o4: u64 := x7 / 0x1000000;
    q1 := Scalar(o0, o1, o2, o3, o4);
    HighLimbs(x0, x1, x2, x3, x4, x5, x6, x7, x3 / 0x100000000000000, x4 / 0x1000000000000, x5 / 0x10000000000,
              x6 / 0x100000000, x7 / 0x1000000);
    SValIsPoly(q1);
    ghost var rest := x0 + 0x10000000000000000 * (x1 + 0x10000000000000000 * (x2 +
                      0x10000000000000000 * (x3 - 0x100000000000000 * (x3 / 0x100000000000000))));
    assert 0 <= rest < TWO248;
    Quotient248(Poly512(x0, x1, x2, x3, x4, x5, x6, x7), SVal(q1), rest);
  }

  lemma PaddedValue(s: bytes, n: nat)
    ensures LeVal(s + Zeros(n)) == LeVal(s)
  {
    LeValAppend(s, Zeros(n));
    ZerosValue(n);
  }

  /** Eight loads cover a 64-byte string. */
  lemma Load512Value(s: bytes)
    requires |s| == 64
    ensures LeVal(s) == Poly512(Load64(s, 0), Load64(s, 8), Load64(s, 16), Load64(s, 24),
                                Load64(s, 32), Load64(s, 40), Load64(s, 48), Load64(s, 56))
  {
    hide Load64, LeVal;
    SplitLow(s, 0);
    SplitLow(s, 8);
    SplitLow(s, 16);
    SplitLow(s, 24);
    SplitLow(s, 32);
    SplitLow(s, 40);
    SplitLow(s, 48);
    SplitLow(s, 56);
    assert s[0..] == s;
    Empty(s[64..]);
  }

  lemma {:induction false} Pow256Mono(m: nat, n: nat)
    requires m <= n
    ensures Pow256(m) <= Pow256(n)
  {
    if m < n {
      Pow256Mono(m, n - 1);
    }
  }

  lemma ShortIsSmall(s: bytes)
    requires |s| < 32
    ensures LeVal(s) < TWO248
  {
    LeValBound(s);
    Pow256Mono(|s|, 31);
    Pow256Of31();
  }

  /** The number in the bytes, modulo L; strings shorter than 32 bytes are small enough to skip the reduction. */
  method Expand256(in1: bytes) returns (out: Scalar)
    requires |in1| <= 64
    ensures Limbs(out, 0x20000000)
    ensures SVal(out) == LeVal(in1) % L
  {
    hide SVal, Load64, LeVal, Poly512, Zeros;
    var work := in1 + Zeros(64 - |in1|);
    PaddedValue(in1, 64 - |in1|);
    Load512Value(work);
    var x0, x1, x2, x3 := Load64(work, 0), Load64(work, 8), Load64(work, 16), Load64(work, 24);
    var x4, x5, x6, x7 := Load64(work, 32), Load64(work, 40), Load64(work, 48), Load64(work, 56);
    out := LowFromWords(x0, x1, x2, x3, x4, x5, x6, x7);
    if |in1| < 32 {
      ShortIsSmall(in1);
      SmallStays(LeVal(in1));
      SmallLimbs(out);
      return;
    }
    var q1 := HighFromWords(x0, x1, x2, x3, x4, x5, x6, x7);
    out := Barrett(q1, out, LeVal(in1));
  }

  lemma SmallStays(v: int)
    requires 0 <= v < TWO248
    ensures v % TWO264 == v && v % L == v
  {}

  lemma SmallLimbs(s: Scalar)
    requires Limbs(s, 0x10000000000) && SVal(s) < TWO248
    ensures Limbs(s, 0x20000000)
  {}

  /** The 256-bit number in the bytes, not reduced. */
  method ExpandRaw256(in1: bytes) returns (out: Scalar)
    requires |in1| == 32
    ensures Limbs(out, 0x100000000)
    ensures SVal(out) == LeVal(in1)
  {
    hide SVal, Load64, LeVal, Poly56;
    var x0, x1, x2, x3 := Load64(in1, 0), Load64(in1, 8), Load64(in1, 16), Load64(in1, 24);
    Load256Value(in1);
    Splice8(x0, x1);
    Splice16(x1, x2);
    Splice24(x2, x3);
    var o0: u64 := x0 % 0x100000000000000;
    var o1: u64 := (x0 / 0x100000000000000 + x1 as int * 0x100 % 0x10000000000000000) % 0x100000000000000;
    var o2: u64 := (x1 / 0x1000000000000 + x2 as int * 0x10000 % 0x10000000000000000) % 0x100000000000000;
    var o3: u64 := (x2 / 0x10000000000 + x3 as int * 0x1000000 % 0x10000000000000000) % 0x100000000000000;
    var o4: u64 := x3 / 0x100000000;
    out := Scalar(o0, o1, o2, o3, o4);
    RawLimbs(x0, x1, x2, x3, x0 / 0x100000000000000, x1 / 0x1000000000000, x2 / 0x10000000000, x3 / 0x100000000);
    SValIsPoly(out);
  }

  lemma RawLimbs(x0: int, x1: int, x2: int, x3: int, q0: int, q1: int, q2: int, q3: int)
    ensures Poly56(x0 - 0x100000000000000 * q0, q0 + 0x100 * (x1 - 0x1000000000000 * q1),
                   q1 + 0x10000 * (x2 - 0x10000000000 * q2),
                   q2 + 0x1000000 * (x3 - 0x100000000 * q3), q3)
         == x0 + 0x10000000000000000 * (x1 + 0x10000000000000000 * (x2 + 0x10000000000000000 * x3))
  {}

  lemma PackedWords(l0: int, l1: int, l2: int, l3: int, l4: int, q1: int, q2: int, q3: int)
    ensures (l0 + 0x100000000000000 * (l1 - 0x100 * q1)) + 0x10000000000000000 * ((q1 + 0x1000000000000 * (l2 - 0x10000 * q2))
            + 0x10000000000000000 * ((q2 + 0x10000000000 * (l3 - 0x1000000 * q3))
                                     + 0x10000000000000000 * (q3 + 0x100000000 * l4)))
         == Poly56(l0, l1, l2, l3, l4)
  {}

  /** The 32 bytes of a scalar; with `Expand256` a round trip on everything below L. */
  method Contract256(in1: Scalar) returns (out: bytes)
    requires Limbs(in1, 0x100000000)
    ensures |out| == 32 && LeVal(out) == SVal(in1)
  {
    hide SVal, LeVal, Poly56;
    Mod64(in1.l1 as int * 0x100000000000000, in1.l1 / 0x100, 0x100000000000000 * (in1.l1 % 0x100));
    var f0: u64 := in1.l0 + in1.l1 as int * 0x100000000000000 % 0x10000000000000000;
    Mod64(in1.l2 as int * 0x1000000000000, in1.l2 / 0x10000, 0x1000000000000 * (in1.l2 % 0x10000));
    var f1: u64 := in1.l1 / 0x100 + in1.l2 as int * 0x1000000000000 % 0x10000000000000000;
    Mod64(in1.l3 as int * 0x10000000000, in1.l3 / 0x1000000, 0x10000000000 * (in1.l3 % 0x1000000));
    var f2: u64 := in1.l2 / 0x10000 + in1.l3 as int * 0x10000000000 % 0x10000000000000000;
    Mod64(in1.l4 as int * 0x100000000, 0, 0x100000000 * in1.l4);
    var f3: u64 := in1.l3 / 0x1000000 + in1.l4 as int * 0x100000000 % 0x10000000000000000;
    PackedWords(in1.l0, in1.l1, in1.l2, in1.l3, in1.l4, in1.l1 / 0x100, in1.l2 / 0x10000, in1.l3 / 0x1000000);
    SValIsPoly(in1);
    var b0 := Store64(f0);
    var b1 := Store64(f1);
    var b2 := Store64(f2);
    var b3 := Store64(f3);
    Store256Value(b0, b1, b2, b3);
    out := b0 + b1 + b2 + b3;
  }

  lemma SmallScalar(v: int)
    requires 0 <= v < L
    ensures v % L == v
  {}

  lemma LimbsFit(s: Scalar)
    requires Limbs(s, 0x20000000)
    ensures Limbs(s, 0x100000000)
  {}

  /** Reading up to 64 bytes and writing back gives the residue modulo L; 32 bytes below L come back unchanged. */
  method ExpandContract256(b: bytes) returns (out: bytes)
    requires |b| <= 64
    ensures |out| == 32 && LeVal(out) == LeVal(b) % L
    ensures |b| == 32 && LeVal(b) < L ==> out == b
  {
    hide SVal, LeVal, Limbs;
    var s := Expand256(b);
    LimbsFit(s);
    out := Contract256(s);
    if |b| == 32 && LeVal(b) < L {
      SmallScalar(LeVal(b));
      LeValInjective(out, b);
    }
  }
}
