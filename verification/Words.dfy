/**
 Machine words. A variable of type `u64` or `u128` can only be assigned a value
 that is in range, so every assignment to one is a proof that the operation did
 not overflow or underflow. Where the code relies on wrap-around it is written
 out with `Sub64`.
 */
module Words {
  type u8 = x: int | 0 <= x < 0x100
  type u32 = x: int | 0 <= x < 0x1_0000_0000
  type u64 = x: int | 0 <= x < 0x1_0000_0000_0000_0000
  type u128 = x: int | 0 <= x < 0x1_0000_0000_0000_0000_0000_0000_0000_0000

  const TWO128 := 0x1_0000_0000_0000_0000_0000_0000_0000_0000
  const TWO192 := 0x1000000000000000000000000000000000000000000000000
  const TWO248 := 0x100000000000000000000000000000000000000000000000000000000000000
  const TWO253 := 0x2000000000000000000000000000000000000000000000000000000000000000
  const TWO256 := 0x10000000000000000000000000000000000000000000000000000000000000000
  const TWO264 := 0x1000000000000000000000000000000000000000000000000000000000000000000
  const TWO512 := 0x100000000000000000000000000000000000000000000000000000000000000000000000000000000000000000000000000000000000000000000000000000000

  /** Unsigned 64-bit subtraction: wraps around when `b > a`. */
  function Sub64(a: u64, b: u64): u64 {
    (a - b) % 0x1_0000_0000_0000_0000
  }

  /** The product of two bounded naturals is bounded by the product of the bounds. */
  lemma MulBound(a: int, b: int, m: int, n: int)
    requires 0 <= a <= m && 0 <= b <= n
    ensures 0 <= a * b <= m * n
  {
    assert a * b <= m * b <= m * n;
  }

  /** The full product of two 64-bit words always fits in 128 bits. */
  function Mul128(a: u64, b: u64): u128 {
    MulBound(a, b, 0xffff_ffff_ffff_ffff, 0xffff_ffff_ffff_ffff);
    (a as int) * (b as int)
  }

  lemma Mod56(x: int, q: int, r: int)
    requires x == 0x100000000000000 * q + r && 0 <= r < 0x100000000000000
    ensures x % 0x100000000000000 == r
  {}

  lemma Mod64(x: int, q: int, r: int)
    requires x == 0x10000000000000000 * q + r && 0 <= r < 0x10000000000000000
    ensures x % 0x10000000000000000 == r
  {}

  function Pow2(n: nat): nat {
    if n == 0 then 1 else 2 * Pow2(n - 1)
  }

  lemma {:induction false} Pow2Add(m: nat, n: nat)
    ensures Pow2(m + n) == Pow2(m) * Pow2(n)
  {
    if m != 0 {
      Pow2Add(m - 1, n);
    }
  }

  lemma {:induction false} Pow2Mono(m: nat, n: nat)
    requires m <= n
    ensures 0 < Pow2(m) <= Pow2(n)
  {
    if m < n {
      Pow2Mono(m, n - 1);
    } else if m != 0 {
      Pow2Mono(m - 1, n - 1);
    }
  }

  lemma Pow2Of1()
    ensures Pow2(1) == 2
  {}

  lemma Pow2Of8()
    ensures Pow2(8) == 0x100
  {}

  lemma Pow2Of32()
    ensures Pow2(32) == 0x1_0000_0000
  {
    hide Pow2;
    Pow2Of8();
    Pow2Add(8, 8);
    Pow2Add(16, 16);
  }

  lemma Pow2Of56()
    ensures Pow2(56) == 0x100_0000_0000_0000
  {
    hide Pow2;
    Pow2Of8();
    Pow2Of32();
    Pow2Add(8, 8);
    Pow2Add(16, 8);
    Pow2Add(32, 24);
  }

  lemma Pow2Of64()
    ensures Pow2(64) == 0x1_0000_0000_0000_0000
  {
    hide Pow2;
    Pow2Of32();
    Pow2Add(32, 32);
  }
}
