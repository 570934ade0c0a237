/** The exponentiation chains of curve25519-donna-helpers.h. */
module PowerChains {
  import opened Words
  import opened PrimeField
  import opened Curve25519

  const EXP_250 := 0x3ffffffffffffffffffffffffffffffffffffffffffffffffffffffffffffff  // 2^250 - 1
  const EXP_INVERSE := 0x7fffffffffffffffffffffffffffffffffffffffffffffffffffffffffffffeb  // p - 2
  const EXP_ROOT := 0xffffffffffffffffffffffffffffffffffffffffffffffffffffffffffffffd  // (p - 5) / 8

  lemma Pow2Literals()
    ensures Pow2(1) == 2 && Pow2(2) == 4 && Pow2(5) == 32 && Pow2(10) == 1024
    ensures Pow2(20) == 0x100000 && Pow2(50) == 0x4000000000000 && Pow2(100) == 0x10000000000000000000000000
  {
    hide Pow2;
    SmallPowersOfTwo();
    Pow2Add(5, 5);
    Pow2Add(10, 10);
    Pow2Add(20, 20);
    Pow2Add(40, 10);
    Pow2Add(50, 50);
  }

  lemma SmallPowersOfTwo()
    ensures Pow2(1) == 2 && Pow2(2) == 4 && Pow2(5) == 32
  {}

  /** `x = z^e` squared `k` times is `z^(e 2^k)`. */
  lemma RaiseTwice(z: int, e: nat, x: int, k: nat, y: int)
    requires Cong(x, Pow(z, e)) && Cong(y, Pow(x, Pow2(k)))
    ensures Cong(y, Pow(z, e * Pow2(k)))
  {
    CongPow(x, Pow(z, e), Pow2(k));
    PowMul(z, e, Pow2(k));
    CongTrans(y, Pow(x, Pow2(k)), Pow(z, e * Pow2(k)));
  }

  lemma Combine(z: int, e: nat, x: int, f: nat, y: int, m: int)
    requires Cong(x, Pow(z, e)) && Cong(y, Pow(z, f)) && Cong(m, x * y)
    ensures Cong(m, Pow(z, e + f))
  {
    CongMul(x, Pow(z, e), y, Pow(z, f));
    PowAdd(z, e, f);
    CongTrans(m, x * y, Pow(z, e + f));
  }

  /** A squaring run in terms of the base: from `z^e` to `z^(e 2^count)`. */
  method Raise(in1: Fe, count: u64, ghost z: int, ghost e: nat, ghost f: nat) returns (out: Fe)
    requires count > 0 && Below(in1, 0x40000000000000)
    requires Cong(Val(in1), Pow(z, e)) && f == e * Pow2(count)
    ensures Tight(out) && Cong(Val(out), Pow(z, f))
  {
    hide Cong, Pow, Val;
    out := SquareTimes(in1, count);
    RaiseTwice(z, e, Val(in1), count, Val(out));
  }

  method Times(in2: Fe, in1: Fe, ghost z: int, ghost e: nat, ghost f: nat) returns (out: Fe)
    requires Below(in2, 0x40000000000000) && Below(in1, 0x40000000000000)
    requires Cong(Val(in2), Pow(z, e)) && Cong(Val(in1), Pow(z, f))
    ensures Tight(out) && Cong(Val(out), Pow(z, e + f))
  {
    hide Cong, Pow, Val;
    out := Mul(in2, in1);
    Combine(z, e, Val(in2), f, Val(in1), Val(out));
  }

  /** From `z^(2^5 - 1)` to `z^(2^250 - 1)`. */
  method Pow250(b0: Fe, ghost z: int) returns (b: Fe)
    requires Below(b0, 0x40000000000000) && Cong(Val(b0), Pow(z, 31))
    ensures Tight(b) && Cong(Val(b), Pow(z, EXP_250))
  {
    hide Cong, Pow, Val, Pow2;
    Pow2Literals();
    b := b0;
    var t0 := Raise(b, 5, z, 0x1f, 0x3e0);
    b := Times(t0, b, z, 0x3e0, 0x1f);
    t0 := Raise(b, 10, z, 0x3ff, 0xffc00);
    var c := Times(t0, b, z, 0xffc00, 0x3ff);
    t0 := Raise(c, 20, z, 0xfffff, 0xfffff00000);
    t0 := Times(t0, c, z, 0xfffff00000, 0xfffff);
    t0 := Raise(t0, 10, z, 0xffffffffff, 0x3fffffffffc00);
    b := Times(t0, b, z, 0x3fffffffffc00, 0x3ff);
    t0 := Raise(b, 50, z, 0x3ffffffffffff, 0xffffffffffffc000000000000);
    c := Times(t0, b, z, 0xffffffffffffc000000000000, 0x3ffffffffffff);
    t0 := Raise(c, 100, z, 0xfffffffffffffffffffffffff, 0xfffffffffffffffffffffffff0000000000000000000000000);
    t0 := Times(t0, c, z, 0xfffffffffffffffffffffffff0000000000000000000000000, 0xfffffffffffffffffffffffff);
    t0 := Raise(t0, 50, z, 0xffffffffffffffffffffffffffffffffffffffffffffffffff,
                0x3fffffffffffffffffffffffffffffffffffffffffffffffffc000000000000);
    b := Times(t0, b, z, 0x3fffffffffffffffffffffffffffffffffffffffffffffffffc000000000000, 0x3ffffffffffff);
  }

  /** `z^(p - 2)`, the inverse of `z` where it has one. */
  method Recip(z: Fe) returns (out: Fe)
    requires Below(z, 0x40000000000000)
    ensures Tight(out)
    ensures Cong(Val(out), Pow(Val(z), EXP_INVERSE))
  {
    hide Cong, Pow, Val, Pow2;
    Pow2Literals();
    ghost var v := Val(z);
    PowOne(v);
    var a := Raise(z, 1, v, 1, 2);
    var t0 := Raise(a, 2, v, 2, 8);
    var b := Times(t0, z, v, 8, 1);
    a := Times(b, a, v, 9, 2);
    t0 := Raise(a, 1, v, 11, 22);
    b := Times(t0, b, v, 22, 9);
    b := Pow250(b, v);
    b := Raise(b, 5, v, EXP_250, 0x7fffffffffffffffffffffffffffffffffffffffffffffffffffffffffffffe0);
    out := Times(b, a, v, 0x7fffffffffffffffffffffffffffffffffffffffffffffffffffffffffffffe0, 11);
  }

  /** `z^((p - 5) / 8)`, the core of the square root. */
  method PowTwo252m3(z: Fe) returns (out: Fe)
    requires Below(z, 0x40000000000000)
    ensures Tight(out)
    ensures Cong(Val(out), Pow(Val(z), EXP_ROOT))
  {
    hide Cong, Pow, Val, Pow2;
    Pow2Literals();
    ghost var v := Val(z);
    PowOne(v);
    var c := Raise(z, 1, v, 1, 2);
    var t0 := Raise(c, 2, v, 2, 8);
    var b := Times(t0, z, v, 8, 1);
    c := Times(b, c, v, 9, 2);
    t0 := Raise(c, 1, v, 11, 22);
    b := Times(t0, b, v, 22, 9);
    b := Pow250(b, v);
    b := Raise(b, 2, v, EXP_250, 0xffffffffffffffffffffffffffffffffffffffffffffffffffffffffffffffc);
    out := Times(b, z, v, 0xffffffffffffffffffffffffffffffffffffffffffffffffffffffffffffffc, 1);
  }

  lemma PowOne(z: int)
    ensures Cong(z, Pow(z, 1))
  {
    hide Cong;
    assert Pow(z, 1) == z * Pow(z, 0);
    CongRefl(z);
  }
}
