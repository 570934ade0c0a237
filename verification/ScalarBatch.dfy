/** The variable-time scalar helpers of batch verification (modm-donna-64bit.h). */
module ScalarBatch {
  import opened Words
  import opened ScalarModM

  function Limb(s: Scalar, i: nat): u64
    requires i < 5
  {
    if i == 0 then s.l0 else if i == 1 then s.l1 else if i == 2 then s.l2 else if i == 3 then s.l3 else s.l4
  }

  function SetLimb(s: Scalar, i: nat, v: u64): Scalar
    requires i < 5
  {
    if i == 0 then s.(l0 := v) else if i == 1 then s.(l1 := v) else if i == 2 then s.(l2 := v)
    else if i == 3 then s.(l3 := v) else s.(l4 := v)
  }

  /** 2^(56 i). */
  function Weight(i: nat): int
    requires i <= 5
  {
    if i == 0 then 1
    else if i == 1 then 0x100000000000000
    else if i == 2 then 0x10000000000000000000000000000
    else if i == 3 then 0x1000000000000000000000000000000000000000000
    else if i == 4 then 0x100000000000000000000000000000000000000000000000000000000
    else 0x10000000000000000000000000000000000000000000000000000000000000000000000
  }

  /** The value of the first `n` limbs. */
  function Low(s: Scalar, n: nat): int
    requires n <= 5
  {
    Poly56(if n < 1 then 0 else s.l0, if n < 2 then 0 else s.l1, if n < 3 then 0 else s.l2, if n < 4 then 0 else s.l3,
           if n < 5 then 0 else s.l4)
  }

  lemma LowStep(s: Scalar, n: nat)
    requires n < 5
    ensures Low(s, n + 1) == Low(s, n) + Weight(n) * Limb(s, n)
  {}

  /** No limb above `limbsize` is set. */
  predicate Fits(s: Scalar, limbsize: nat) {
    && s.l0 < 0x100000000000000 && s.l1 < 0x100000000000000 && s.l2 < 0x100000000000000
    && s.l3 < 0x100000000000000 && s.l4 < 0x100000000000000
    && (limbsize < 1 ==> s.l1 == 0) && (limbsize < 2 ==> s.l2 == 0)
    && (limbsize < 3 ==> s.l3 == 0) && (limbsize < 4 ==> s.l4 == 0)
  }

  lemma FitsLow(s: Scalar, limbsize: nat)
    requires limbsize <= 4 && Fits(s, limbsize)
    ensures Low(s, limbsize + 1) == SVal(s)
  {}

  /** One step of a subtraction with borrow: the 64-bit word, and its top bit. */
  function Diff(a: u64, b: u64, carry: u64): u64 {
    Sub64(Sub64(a, b), carry)
  }

  lemma DiffValue(a: u64, b: u64, carry: u64)
    requires a < 0x100000000000000 && b < 0x100000000000000 && carry <= 1
    ensures Diff(a, b, carry) / 0x8000000000000000 == if a < b + carry then 1 else 0
    ensures Diff(a, b, carry) % 0x100000000000000 == if a < b + carry then a - b - carry + 0x100000000000000 else a - b - carry
    ensures a >= b + carry ==> Diff(a, b, carry) == a - b - carry
  {
    hide Diff;
    DiffIs(a, b, carry);
    if a < b + carry {
      WrappedWord(Diff(a, b, carry), a - b - carry);
    } else {
      ShortWord(Diff(a, b, carry));
    }
  }

  lemma DiffIs(a: u64, b: u64, carry: u64)
    requires a < 0x100000000000000 && b < 0x100000000000000 && carry <= 1
    ensures Diff(a, b, carry) == a - b - carry + if a < b + carry then 0x10000000000000000 else 0
  {
    Wraps(a - b);
    Wraps(a - b - carry);
    if a < b {
      Below64(a - b + 0x10000000000000000 - carry);
    }
  }

  lemma Wraps(x: int)
    requires -0x200000000000000 <= x < 0x100000000000000
    ensures x % 0x10000000000000000 == x + if x < 0 then 0x10000000000000000 else 0
  {}

  lemma Below64(x: int)
    requires 0 <= x < 0x10000000000000000
    ensures x % 0x10000000000000000 == x
  {}

  lemma WrappedWord(d: int, x: int)
    requires d == x + 0x10000000000000000 && -0x100000000000000 <= x < 0
    ensures d / 0x8000000000000000 == 1 && d % 0x100000000000000 == x + 0x100000000000000
  {
    assert d == 0x100000000000000 * 0xff + (x + 0x100000000000000);
  }

  lemma ShortWord(d: int)
    requires 0 <= d < 0x100000000000000
    ensures d / 0x8000000000000000 == 0 && d % 0x100000000000000 == d
  {}

  /** How a borrow decides the order of two numbers one limb at a time. */
  lemma BorrowStep(a: Scalar, b: Scalar, i: nat, carry: u64, next: u64)
    requires i < 5 && Fits(a, 4) && Fits(b, 4)
    requires carry == (if Low(a, i) < Low(b, i) then 1 else 0)
    requires next == (if Limb(a, i) < Limb(b, i) + carry then 1 else 0)
    ensures next == (if Low(a, i + 1) < Low(b, i + 1) then 1 else 0)
  {
    LowStep(a, i);
    LowStep(b, i);
    LowRange(a, i);
    LowRange(b, i);
    var d := Limb(a, i) - Limb(b, i);
    if i == 0 {
    } else if i == 1 {
      assert Weight(i) * d == 0x100000000000000 * d;
    } else if i == 2 {
      assert Weight(i) * d == 0x10000000000000000000000000000 * d;
    } else if i == 3 {
      assert Weight(i) * d == 0x1000000000000000000000000000000000000000000 * d;
    } else {
      assert Weight(i) * d == 0x100000000000000000000000000000000000000000000000000000000 * d;
    }
  }

  lemma LowRange(s: Scalar, n: nat)
    requires n <= 5 && Fits(s, 4)
    ensures 0 <= Low(s, n) < Weight(n)
  {}

  /** Is a < b, looking only at limbs 0 to `limbsize`. */
  method LtBatch(a: Scalar, b: Scalar, limbsize: nat) returns (r: bool)
    requires limbsize <= 4 && Fits(a, limbsize) && Fits(b, limbsize)
    ensures r == (SVal(a) < SVal(b))
  {
    hide SVal, Low, Weight, Diff;
    var carry: u64 := 0;
    LowNone(a);
    LowNone(b);
    for i := 0 to limbsize + 1
      invariant carry == (if Low(a, i) < Low(b, i) then 1 else 0)
    {
      DiffValue(Limb(a, i), Limb(b, i), carry);
      BorrowStep(a, b, i, carry, Diff(Limb(a, i), Limb(b, i), carry) / 0x8000000000000000);
      carry := Diff(Limb(a, i), Limb(b, i), carry) / 0x8000000000000000;
    }
    FitsLow(a, limbsize);
    FitsLow(b, limbsize);
    r := carry != 0;
  }

  lemma LowNone(s: Scalar)
    ensures Low(s, 0) == 0
  {}

  /** Is a <= b: the same loop on b - a. */
  method LteBatch(a: Scalar, b: Scalar, limbsize: nat) returns (r: bool)
    requires limbsize <= 4 && Fits(a, limbsize) && Fits(b, limbsize)
    ensures r == (SVal(a) <= SVal(b))
  {
    var carry := LtBatch(b, a, limbsize);
    r := !carry;
  }

  lemma SubStep(out: Scalar, a: Scalar, b: Scalar, i: nat, carry: u64, next: u64, limb: u64)
    requires i < 5 && carry <= 1 && next <= 1
    requires Low(out, i) == Low(a, i) - Low(b, i) + Weight(i) * carry
    requires limb == Limb(a, i) - Limb(b, i) - carry + 0x100000000000000 * next
    ensures Low(SetLimb(out, i, limb), i + 1) == Low(a, i + 1) - Low(b, i + 1) + Weight(i + 1) * next
  {
    LowStep(a, i);
    LowStep(b, i);
    var o := SetLimb(out, i, limb);
    LowStep(o, i);
    assert Low(o, i) == Low(out, i);
    if i == 0 {
    } else if i == 1 {
    } else if i == 2 {
    } else if i == 3 {
    } else {
    }
  }

  /** `out` = a - b on limbs 0 to `limbsize`; the limbs above keep what `out` held. */
  method SubBatch(out0: Scalar, a: Scalar, b: Scalar, limbsize: nat) returns (out: Scalar)
    requires limbsize <= 4 && Fits(a, limbsize) && Fits(b, limbsize) && Fits(out0, limbsize)
    requires SVal(a) >= SVal(b)
    ensures Fits(out, limbsize) && SVal(out) == SVal(a) - SVal(b)
  {
    hide SVal, Low, Weight, Diff;
    out := out0;
    var carry: u64 := 0;
    LowNone(a);
    LowNone(b);
    LowNone(out);
    for i := 0 to limbsize
      invariant carry == (if Low(a, i) < Low(b, i) then 1 else 0)
      invariant Low(out, i) == Low(a, i) - Low(b, i) + Weight(i) * carry
      invariant Fits(out, limbsize)
    {
      var x, y := Limb(a, i), Limb(b, i);
      DiffValue(x, y, carry);
      var d := Diff(x, y, carry);
      var next := d / 0x8000000000000000;
      BorrowStep(a, b, i, carry, next);
      SubStep(out, a, b, i, carry, next, d % 0x100000000000000);
      out := SetLimb(out, i, d % 0x100000000000000);
      carry := next;
    }
    var x, y := Limb(a, limbsize), Limb(b, limbsize);
    DiffValue(x, y, carry);
    BorrowStep(a, b, limbsize, carry, Diff(x, y, carry) / 0x8000000000000000);
    FitsLow(a, limbsize);
    FitsLow(b, limbsize);
    SubStep(out, a, b, limbsize, carry, 0, Diff(x, y, carry));
    out := SetLimb(out, limbsize, Diff(x, y, carry));
    FitsLow(out, limbsize);
  }

  method IsZeroBatch(a: Scalar) returns (r: bool)
    ensures r == (SVal(a) == 0)
  {
    for i := 0 to 5
      invariant forall j: nat :: j < i ==> Limb(a, j) == 0
    {
      if Limb(a, i) != 0 {
        assert SVal(a) != 0 by {
          ValueNonZero(a, i);
        }
        return false;
      }
    }
    AllZero(a);
    return true;
  }

  lemma ValueNonZero(a: Scalar, i: nat)
    requires i < 5 && Limb(a, i) != 0
    ensures SVal(a) > 0
  {}

  lemma AllZero(a: Scalar)
    requires forall j: nat :: j < 5 ==> Limb(a, j) == 0
    ensures SVal(a) == 0
  {
    assert Limb(a, 0) == 0 && Limb(a, 1) == 0 && Limb(a, 2) == 0 && Limb(a, 3) == 0 && Limb(a, 4) == 0;
  }

  method IsOneBatch(a: Scalar) returns (r: bool)
    requires Fits(a, 4)
    ensures r == (SVal(a) == 1)
  {
    for i := 0 to 5
      invariant forall j: nat :: j < i ==> Limb(a, j) == if j == 0 then 1 else 0
    {
      if Limb(a, i) != if i == 0 then 1 else 0 {
        assert SVal(a) != 1 by {
          ValueNotOne(a, i);
        }
        return false;
      }
    }
    OnlyOne(a);
    return true;
  }

  lemma ValueNotOne(a: Scalar, i: nat)
    requires Fits(a, 4) && i < 5 && Limb(a, i) != if i == 0 then 1 else 0
    ensures SVal(a) != 1
  {}

  lemma OnlyOne(a: Scalar)
    requires forall j: nat :: j < 5 ==> Limb(a, j) == if j == 0 then 1 else 0
    ensures SVal(a) == 1
  {
    assert Limb(a, 0) == 1 && Limb(a, 1) == 0 && Limb(a, 2) == 0 && Limb(a, 3) == 0 && Limb(a, 4) == 0;
  }

  /** Can `a` fit in 128 bits: limbs 3 and 4 and the bits of limb 2 from 16 up are all clear. */
  method IsAtMost128Bits(a: Scalar) returns (r: bool)
    requires Fits(a, 4)
    ensures r == (SVal(a) < 0x100000000000000000000000000000000)
  {
    // `mask = a[4] | a[3] | (a[2] & 0xffffffffff0000)` is zero exactly when each of the three is
    r := a.l4 == 0 && a.l3 == 0 && a.l2 / 0x10000 == 0;
  }
}
