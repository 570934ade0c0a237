/** Field elements to and from 32 little-endian bytes (curve25519-donna-64bit.h). */
module Curve25519Bytes {
  import opened Words
  import opened PrimeField
  import opened Curve25519
  import opened Bytes

  /** The value of four 64-bit words. */
  function Poly64(x0: int, x1: int, x2: int, x3: int): int {
    x0 + 0x10000000000000000 * (x1 + 0x10000000000000000 * (x2 + 0x10000000000000000 * x3))
  }

  const TWO255: int := 0x8000000000000000000000000000000000000000000000000000000000000000

  lemma Mod51(x: int, q: int, r: int)
    requires x == 0x8000000000000 * q + r && 0 <= r < 0x8000000000000
    ensures x % 0x8000000000000 == r
  {}

  /** Each spliced word, masked to 51 bits, is the top of one word and the bottom of the next. */
  lemma Lane0(lo: u64, hi: u64)
    ensures (lo / 0x8000000000000 + hi as int * 0x2000 % 0x10000000000000000) % 0x8000000000000
         == lo / 0x8000000000000 + 0x2000 * (hi % 0x4000000000)
  {
    Lane0With(lo / 0x8000000000000, hi % 0x4000000000, hi / 0x4000000000 % 0x2000, hi / 0x4000000000 / 0x2000, hi);
  }

  lemma Lane0With(low: int, h0: int, h1: int, h2: int, hi: int)
    requires 0 <= low < 0x2000 && 0 <= h0 < 0x4000000000 && 0 <= h1 < 0x2000 && hi == 0x4000000000 * (0x2000 * h2 + h1) + h0
    ensures (low + hi * 0x2000 % 0x10000000000000000) % 0x8000000000000 == low + 0x2000 * h0
  {
    Mod64(hi * 0x2000, h2, 0x2000 * (0x4000000000 * h1 + h0));
    Mod51(low + 0x2000 * (0x4000000000 * h1 + h0), h1, low + 0x2000 * h0);
  }

  lemma Lane1(lo: u64, hi: u64)
    ensures (lo / 0x4000000000 + hi as int * 0x4000000 % 0x10000000000000000) % 0x8000000000000
         == lo / 0x4000000000 + 0x4000000 * (hi % 0x2000000)
  {
    Lane1With(lo / 0x4000000000, hi % 0x2000000, hi / 0x2000000 % 0x2000, hi / 0x2000000 / 0x2000, hi);
  }

  lemma Lane1With(low: int, h0: int, h1: int, h2: int, hi: int)
    requires 0 <= low < 0x4000000 && 0 <= h0 < 0x2000000 && 0 <= h1 < 0x2000 && hi == 0x2000000 * (0x2000 * h2 + h1) + h0
    ensures (low + hi * 0x4000000 % 0x10000000000000000) % 0x8000000000000 == low + 0x4000000 * h0
  {
    Mod64(hi * 0x4000000, h2, 0x4000000 * (0x2000000 * h1 + h0));
    Mod51(low + 0x4000000 * (0x2000000 * h1 + h0), h1, low + 0x4000000 * h0);
  }

  lemma Lane2(lo: u64, hi: u64)
    ensures (lo / 0x2000000 + hi as int * 0x8000000000 % 0x10000000000000000) % 0x8000000000000
         == lo / 0x2000000 + 0x8000000000 * (hi % 0x1000)
  {
    Lane2With(lo / 0x2000000, hi % 0x1000, hi / 0x1000 % 0x2000, hi / 0x1000 / 0x2000, hi);
  }

  lemma Lane2With(low: int, h0: int, h1: int, h2: int, hi: int)
    requires 0 <= low < 0x8000000000 && 0 <= h0 < 0x1000 && 0 <= h1 < 0x2000 && hi == 0x1000 * (0x2000 * h2 + h1) + h0
    ensures (low + hi * 0x8000000000 % 0x10000000000000000) % 0x8000000000000 == low + 0x8000000000 * h0
  {
    Mod64(hi * 0x8000000000, h2, 0x8000000000 * (0x1000 * h1 + h0));
    Mod51(low + 0x8000000000 * (0x1000 * h1 + h0), h1, low + 0x8000000000 * h0);
  }

  lemma Relimb(x0: int, x1: int, x2: int, x3: int, q0: int, q1: int, q2: int, q3: int, top: int)
    ensures Poly(x0 - 0x8000000000000 * q0,
                 q0 + 0x2000 * (x1 - 0x4000000000 * q1),
                 q1 + 0x4000000 * (x2 - 0x2000000 * q2),
                 q2 + 0x8000000000 * (x3 - 0x1000 * q3),
                 q3 - 0x8000000000000 * top)
         == Poly64(x0, x1, x2, x3) - TWO255 * top
  {}

  /** The top bit of the last byte is dropped: the value is taken modulo 2^255. */
  method Expand(in1: bytes) returns (out: Fe)
    requires |in1| == 32
    ensures Below(out, 0x8000000000000)
    ensures Val(out) == LeVal(in1) % TWO255
  {
    var x0, x1, x2, x3 := Load64(in1, 0), Load64(in1, 8), Load64(in1, 16), Load64(in1, 24);
    out := ExpandWords(x0, x1, x2, x3);
    hide *;
    Load256Value(in1);
  }

  method ExpandWords(w0: u64, w1: u64, w2: u64, w3: u64) returns (out: Fe)
    ensures Below(out, 0x8000000000000)
    ensures Val(out) == Poly64(w0, w1, w2, w3) % TWO255
  {
    hide Val, Poly, Poly64;
    var x0, x1, x2, x3 := w0, w1, w2, w3;
    Lane0(w0, w1);
    Lane1(w1, w2);
    Lane2(w2, w3);
    var o0 := x0 % 0x8000000000000;
    x0 := x0 / 0x8000000000000 + x1 as int * 0x2000 % 0x10000000000000000;
    var o1 := x0 % 0x8000000000000;
    x1 := x1 / 0x4000000000 + x2 as int * 0x4000000 % 0x10000000000000000;
    var o2 := x1 % 0x8000000000000;
    x2 := x2 / 0x2000000 + x3 as int * 0x8000000000 % 0x10000000000000000;
    var o3 := x2 % 0x8000000000000;
    x3 := x3 / 0x1000;
    var o4 := x3 % 0x8000000000000;
    out := Fe(o0, o1, o2, o3, o4);
    ghost var top := x3 / 0x8000000000000;
    Relimb(w0, w1, w2, w3, w0 / 0x8000000000000, w1 / 0x4000000000, w2 / 0x2000000, w3 / 0x1000, top);
    ValIsPoly(out);
    ValBound(out);
    Remainder(Poly64(w0, w1, w2, w3), top, Val(out));
  }

  lemma ValBound(f: Fe)
    requires Below(f, 0x8000000000000)
    ensures 0 <= Val(f) < TWO255
  {}

  lemma Remainder(x: int, q: int, r: int)
    requires x == TWO255 * q + r && 0 <= r < TWO255
    ensures r == x % TWO255 && q == x / TWO255
  {}

  lemma RippleValue(x0: int, x1: int, x2: int, x3: int, x4: int, c0: int, c1: int, c2: int, c3: int, c4: int)
    ensures Poly(x0, x1, x2, x3, x4)
         == Poly(x0 - 0x8000000000000 * c0, x1 + c0 - 0x8000000000000 * c1, x2 + c1 - 0x8000000000000 * c2,
                 x3 + c2 - 0x8000000000000 * c3, x4 + c3 - 0x8000000000000 * c4) + TWO255 * c4
  {}

  /** `curve25519_contract_carry` with the top limb masked: a division of the value by 2^255. */
  method CarryPass(x: Fe) returns (t: Fe, c: u64)
    requires Below(x, 0xf000000000000000)
    ensures Below(t, 0x8000000000000)
    ensures Val(t) == Val(x) % TWO255
    ensures c == Val(x) / TWO255
    ensures c < 0x2000
  {
    hide Val, Poly;
    var t0, t1, t2, t3, t4 := x.l0, x.l1, x.l2, x.l3, x.l4;
    ghost var c0 := t0 / 0x8000000000000;
    t1 := t1 + t0 / 0x8000000000000;
    t0 := t0 % 0x8000000000000;
    ghost var c1 := t1 / 0x8000000000000;
    t2 := t2 + t1 / 0x8000000000000;
    t1 := t1 % 0x8000000000000;
    ghost var c2 := t2 / 0x8000000000000;
    t3 := t3 + t2 / 0x8000000000000;
    t2 := t2 % 0x8000000000000;
    ghost var c3 := t3 / 0x8000000000000;
    t4 := t4 + t3 / 0x8000000000000;
    t3 := t3 % 0x8000000000000;
    c := t4 / 0x8000000000000;
    t4 := t4 % 0x8000000000000;
    t := Fe(t0, t1, t2, t3, t4);
    RippleValue(x.l0, x.l1, x.l2, x.l3, x.l4, c0, c1, c2, c3, c);
    ValIsPoly(t);
    ValIsPoly(x);
    ValBound(t);
    Remainder(Val(x), c, Val(t));
  }

  /** Adding to the lowest limb. */
  lemma BumpValue(f: Fe, n: int)
    requires 0 <= f.l0 + n < 0x10000000000000000
    ensures Val(f.(l0 := f.l0 + n)) == Val(f) + n
  {}

  /** 2^255 is worth 19. */
  function FoldTop(v: int): int {
    v % TWO255 + 19 * (v / TWO255)
  }

  /** `curve25519_contract_carry_full`. */
  method CarryFull(x: Fe) returns (t: Fe)
    requires Below(x, 0xf000000000000000)
    ensures Below(t, 0x8000000030000)
    ensures Val(t) == FoldTop(Val(x))
  {
    hide Val;
    var c;
    t, c := CarryPass(x);
    BumpValue(t, 19 * c);
    t := t.(l0 := t.l0 + 19 * c);
  }

  const OFFSET := Fe(0x8000000000000 - 19, 0x8000000000000 - 1, 0x8000000000000 - 1, 0x8000000000000 - 1,
                     0x8000000000000 - 1)

  lemma OffsetValue()
    ensures Below(OFFSET, 0x8000000000001)
    ensures Val(OFFSET) == TWO255 - 19
  {}

  lemma FoldTopCong(v: int)
    ensures Cong(FoldTop(v), v)
  {
    CongByMultiple(FoldTop(v), v, -(v / TWO255));
  }

  lemma FoldTopBounds(v: int)
    requires 0 <= v
    ensures v < 0x2000 * TWO255 ==> 0 <= FoldTop(v) < TWO255 + 19 * 0x2000
    ensures v < TWO255 + 19 * 0x2000 ==> 0 <= FoldTop(v) < TWO255
  {}

  /** Adding 19, folding, and taking 19 off again modulo 2^255 subtracts p exactly when it fits. */
  lemma SubtractOnce(v: int)
    requires 0 <= v < TWO255
    ensures (FoldTop(v + 19) + TWO255 - 19) % TWO255 == v % P
  {
    if v < P {
      assert FoldTop(v + 19) == v + 19;
    } else {
      assert (v + 19) / TWO255 == 1;
      assert v % P == v - P;
    }
  }

  /** The value of `x` brought into [0, p), with every limb below 2^51. */
  method Canonical(x: Fe) returns (t: Fe)
    requires Below(x, 0x8000000000000000)
    ensures Below(t, 0x8000000000000)
    ensures Val(t) == Val(x) % P
  {
    hide Val, FoldTop, Cong;
    ValRange(x);
    ghost var v := Val(x);
    t := CarryFull(x);
    FoldTopBounds(v);
    FoldTopCong(v);
    t := CarryFull(t);
    FoldTopBounds(FoldTop(v));
    FoldTopCong(FoldTop(v));
    CongTrans(FoldTop(FoldTop(v)), FoldTop(v), v);
    CongMod(FoldTop(FoldTop(v)), v);
    SubtractOnce(Val(t));
    BumpValue(t, 19);
    t := t.(l0 := t.l0 + 19);
    t := CarryFull(t);
    OffsetValue();
    t := Curve25519.Add(t, OFFSET);
    var c;
    t, c := CarryPass(t);
  }

  lemma ValRange(x: Fe)
    requires Below(x, 0x8000000000000000)
    ensures 0 <= Val(x) < 0x2000 * TWO255
  {}

  lemma Reword(t0: int, t1: int, t2: int, t3: int, t4: int, q1: int, q2: int, q3: int)
    ensures Poly64(t0 + 0x8000000000000 * (t1 - 0x2000 * q1),
                   q1 + 0x4000000000 * (t2 - 0x4000000 * q2),
                   q2 + 0x2000000 * (t3 - 0x8000000000 * q3),
                   q3 + 0x1000 * t4)
         == Poly(t0, t1, t2, t3, t4)
  {}

  /** The 32 bytes of the canonical representative of `x` modulo p. */
  method Contract(x: Fe) returns (out: bytes)
    requires Below(x, 0x8000000000000000)
    ensures |out| == 32
    ensures LeVal(out) == Val(x) % P
  {
    hide Val, Poly, Poly64, LeVal;
    var t := Canonical(x);
    Mod64(t.l1 as int * 0x8000000000000, t.l1 / 0x2000, 0x8000000000000 * (t.l1 % 0x2000));
    var f0: u64 := t.l0 + t.l1 as int * 0x8000000000000 % 0x10000000000000000;
    Mod64(t.l2 as int * 0x4000000000, t.l2 / 0x4000000, 0x4000000000 * (t.l2 % 0x4000000));
    var f1: u64 := t.l1 / 0x2000 + t.l2 as int * 0x4000000000 % 0x10000000000000000;
    Mod64(t.l3 as int * 0x2000000, t.l3 / 0x8000000000, 0x2000000 * (t.l3 % 0x8000000000));
    var f2: u64 := t.l2 / 0x4000000 + t.l3 as int * 0x2000000 % 0x10000000000000000;
    Mod64(t.l4 as int * 0x1000, 0, 0x1000 * t.l4);
    var f3: u64 := t.l3 / 0x8000000000 + t.l4 as int * 0x1000 % 0x10000000000000000;
    Reword(t.l0, t.l1, t.l2, t.l3, t.l4, t.l1 / 0x2000, t.l2 / 0x4000000, t.l3 / 0x8000000000);
    ValIsPoly(t);
    var b0 := Store64(f0);
    var b1 := Store64(f1);
    var b2 := Store64(f2);
    var b3 := Store64(f3);
    Store256Value(b0, b1, b2, b3);
    out := b0 + b1 + b2 + b3;
    Poly64Is(f0, f1, f2, f3);
  }

  lemma Poly64Is(x0: int, x1: int, x2: int, x3: int)
    ensures Poly64(x0, x1, x2, x3)
         == x0 + 0x10000000000000000 * (x1 + 0x10000000000000000 * (x2 + 0x10000000000000000 * x3))
  {}

  /** Two byte strings written from congruent limb vectors are the same. */
  lemma ContractUnique(x: Fe, y: Fe, a: bytes, b: bytes)
    requires |a| == |b| == 32 && LeVal(a) == Val(x) % P && LeVal(b) == Val(y) % P
    ensures Cong(Val(x), Val(y)) <==> a == b
  {
    CongMod(Val(x), Val(y));
    if LeVal(a) == LeVal(b) {
      LeValInjective(a, b);
    }
  }

  lemma SmallResidue(v: int)
    requires 0 <= v < P
    ensures v % TWO255 % P == v
  {}

  /** Reading and writing back reduces modulo p after clearing the top bit, and returns canonical bytes unchanged. */
  method ExpandContract(b: bytes) returns (out: bytes)
    requires |b| == 32
    ensures |out| == 32 && LeVal(out) == LeVal(b) % TWO255 % P
    ensures LeVal(b) < P ==> out == b
  {
    hide Val, LeVal, Below;
    var f := Expand(b);
    FitsContract(f);
    out := Contract(f);
    if LeVal(b) < P {
      SmallResidue(LeVal(b));
      LeValInjective(out, b);
    }
  }

  lemma FitsContract(f: Fe)
    requires Below(f, 0x8000000000000)
    ensures Below(f, 0x8000000000000000)
  {}
}
