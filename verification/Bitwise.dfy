/**
 Bitwise operators on machine words seen as numbers, and the branch-free idioms
 built from them.
 */
module Bitwise {
  import opened Words

  function Xor(x: nat, y: nat): nat
    decreases x + y
  {
    if x == 0 && y == 0 then 0 else (x + y) % 2 + 2 * Xor(x / 2, y / 2)
  }

  function And(x: nat, y: nat): nat {
    if x == 0 then 0 else (x % 2) * (y % 2) + 2 * And(x / 2, y / 2)
  }

  function Or(x: nat, y: nat): nat
    decreases x + y
  {
    if x == 0 && y == 0 then 0 else (if x % 2 + y % 2 > 0 then 1 else 0) + 2 * Or(x / 2, y / 2)
  }

  function Not64(x: u64): u64 {
    0xffff_ffff_ffff_ffff - x
  }

  function Not32(x: u32): u32 {
    0xffff_ffff - x
  }

  lemma {:induction false} XorBound(x: nat, y: nat, n: nat)
    requires x < Pow2(n) && y < Pow2(n)
    ensures Xor(x, y) < Pow2(n)
  {
    if n > 0 {
      XorBound(x / 2, y / 2, n - 1);
    }
  }

  lemma {:induction false} XorZero(x: nat)
    ensures Xor(x, 0) == x
  {
    if x > 0 {
      XorZero(x / 2);
    }
  }

  lemma {:induction false} XorEqual(x: nat, y: nat)
    ensures Xor(x, y) == 0 <==> x == y
    decreases x + y
  {
    if x > 0 || y > 0 {
      XorEqual(x / 2, y / 2);
    }
  }

  lemma XorHalves(x: nat, y: nat)
    ensures Xor(x, y) / 2 == Xor(x / 2, y / 2) && Xor(x, y) % 2 == (x + y) % 2
  {}

  lemma FromHalves(x: nat, y: nat)
    requires x / 2 == y / 2 && x % 2 == y % 2
    ensures x == y
  {}

  lemma SameParity(x: nat, y: nat, z: nat)
    requires z % 2 == (x + y) % 2
    ensures (x + z) % 2 == y % 2 && (y + z) % 2 == x % 2
  {}

  lemma {:induction false} XorTwice(x: nat, y: nat)
    ensures Xor(x, Xor(x, y)) == y && Xor(y, Xor(x, y)) == x
    decreases x + y
  {
    if x > 0 || y > 0 {
      hide Xor;
      var z := Xor(x, y);
      XorTwice(x / 2, y / 2);
      XorHalves(x, y);
      XorHalves(x, z);
      XorHalves(y, z);
      SameParity(x, y, z);
      FromHalves(Xor(x, z), y);
      FromHalves(Xor(y, z), x);
    }
  }

  lemma {:induction false} XorOnes(x: nat, n: nat)
    requires x < Pow2(n)
    ensures Xor(x, Pow2(n) - 1) == Pow2(n) - 1 - x
  {
    if n > 0 {
      XorOnes(x / 2, n - 1);
      Doubled(n);
      XorOnesStep(x, Pow2(n - 1));
    }
  }

  lemma XorOnesStep(x: nat, p: nat)
    requires x < 2 * p && Xor(x / 2, p - 1) == p - 1 - x / 2
    ensures Xor(x, 2 * p - 1) == 2 * p - 1 - x
  {
    hide Xor;
    OnesHalves(p, x);
    OnesHalves(p, 0);
    XorHalves(x, 2 * p - 1);
    FromHalves(Xor(x, 2 * p - 1), 2 * p - 1 - x);
  }

  lemma Doubled(n: nat)
    requires n > 0
    ensures Pow2(n) == 2 * Pow2(n - 1) && Pow2(n - 1) > 0
  {
    Pow2Mono(0, n - 1);
  }

  lemma OnesHalves(p: nat, x: nat)
    requires x < 2 * p
    ensures (2 * p - 1 - x) / 2 == p - 1 - x / 2 && (2 * p - 1 - x) % 2 == (x + 1) % 2 == (x + (2 * p - 1)) % 2
  {}

  lemma {:induction false} AndOnes(x: nat, n: nat)
    requires x < Pow2(n)
    ensures And(Pow2(n) - 1, x) == x
  {
    if n > 0 {
      AndOnes(x / 2, n - 1);
      assert (Pow2(n) - 1) / 2 == Pow2(n - 1) - 1;
    }
  }

  lemma {:induction false} OrZero(x: nat)
    ensures Or(x, 0) == x && Or(0, x) == x
  {
    if x > 0 {
      OrZero(x / 2);
    }
  }

  lemma {:induction false} OrEmpty(x: nat, y: nat)
    ensures Or(x, y) == 0 <==> x == 0 && y == 0
    decreases x + y
  {
    if x > 0 || y > 0 {
      OrEmpty(x / 2, y / 2);
    }
  }

  lemma {:induction false} OrBound(x: nat, y: nat, n: nat)
    requires x < Pow2(n) && y < Pow2(n)
    ensures Or(x, y) < Pow2(n)
  {
    if n > 0 {
      OrBound(x / 2, y / 2, n - 1);
    }
  }

  /** One more pair of bytes collected in `d`: it stays a byte, and stays 0 exactly for equal bytes. */
  lemma CollectsDifference(d: u8, x: u8, y: u8)
    ensures Or(d, Xor(x, y)) < 0x100
    ensures Or(d, Xor(x, y)) == 0 <==> d == 0 && x == y
  {
    hide Or, Xor, Pow2;
    Pow2Of8();
    XorBound(x, y, 8);
    XorEqual(x, y);
    OrBound(d, Xor(x, y), 8);
    OrEmpty(d, Xor(x, y));
  }

  /** `1 & ((d - 1) >> 8)` is 1 exactly for the byte 0. */
  lemma NoDifference(d: u8)
    ensures Sub64(d, 1) / 0x100 % 2 == if d == 0 then 1 else 0
  {
    assert Sub64(d, 1) == if d == 0 then 0xffff_ffff_ffff_ffff else d - 1;
  }

  /** `r ^ (mask & (r ^ t))` with `mask = b - 1` is `t` when nothing was borrowed and `r` otherwise. */
  lemma MaskSelects(b: u64, r: u64, t: u64)
    requires b <= 1
    ensures Xor(r, And(Sub64(b, 1), Xor(r, t))) == if b == 0 then t else r
  {
    Pow2Of64();
    if b == 0 {
      XorBound(r, t, 64);
      AndOnes(Xor(r, t), 64);
      XorTwice(r, t);
    } else {
      XorZero(r);
    }
  }

  /** `x = swap & (a ^ b); a ^= x; b ^= x` with `swap` the negated flag exchanges two words or leaves them. */
  lemma MaskSwaps(flag: u64, a: u64, b: u64)
    requires flag <= 1
    ensures Xor(a, And(Sub64(0, flag), Xor(a, b))) == if flag == 1 then b else a
    ensures Xor(b, And(Sub64(0, flag), Xor(a, b))) == if flag == 1 then a else b
  {
    Pow2Of64();
    if flag == 1 {
      XorBound(a, b, 64);
      AndOnes(Xor(a, b), 64);
      XorTwice(a, b);
    } else {
      XorZero(a);
      XorZero(b);
    }
  }

  /** `(a & nb) | (c & b)` with `nb = flag - 1` and `b = ~nb` is `c` when the flag is set and `a` otherwise. */
  lemma MaskMoves(flag: u64, a: u64, c: u64)
    requires flag <= 1
    ensures Or(And(Sub64(flag, 1), a), And(Not64(Sub64(flag, 1)), c)) == if flag == 1 then c else a
  {
    hide Pow2, Or;
    Pow2Of64();
    AndOnes(a, 64);
    AndOnes(c, 64);
    OrZero(a);
    OrZero(c);
  }

  /** Unsigned 32-bit addition and subtraction, wrapping around. */
  function Add32(a: int, b: int): u32 {
    (a + b) % 0x1_0000_0000
  }

  function Sub32(a: u32, b: u32): u32 {
    (a - b) % 0x1_0000_0000
  }

  /** `((b ^ c) - 1) >> 31` compares two words below 2^31. */
  lemma WindowEqual(b: u32, c: u32)
    requires b < 0x8000_0000 && c < 0x8000_0000
    ensures Xor(b, c) < 0x8000_0000
    ensures Sub32(Xor(b, c), 1) / 0x8000_0000 == if b == c then 1 else 0
  {
    hide Xor, Pow2;
    Pow2Of32();
    Doubled(32);
    XorBound(b, c, 31);
    XorEqual(b, c);
    TopBit(Xor(b, c));
  }

  lemma TopBit(x: u32)
    requires x < 0x8000_0000
    ensures Sub32(x, 1) / 0x8000_0000 == if x == 0 then 1 else 0
  {
    assert Sub32(x, 1) == if x == 0 then 0xffff_ffff else x - 1;
  }

  /** `(b + mask) ^ mask` is the absolute value of `b` when `mask` is all ones for a negative `b` and zero otherwise. */
  lemma MaskNegates(b: int, mask: u32)
    requires -0x80 <= b < 0x80 && mask == if b < 0 then 0xffff_ffff else 0
    ensures Xor(Add32(b, mask), mask) == if b < 0 then -b else b
  {
    Pow2Of32();
    if b < 0 {
      XorOnes(Add32(b, mask), 32);
    } else {
      XorZero(Add32(b, mask));
    }
  }
}
