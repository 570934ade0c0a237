/** The sliding-window recoding of a scalar (modm-donna-64bit.h). */
module Recoding {
  import opened Words
  import opened ScalarModM

  /** The number a string of digits stands for in base 2, lowest digit first. */
  ghost function Digits(d: seq<int>): int {
    if |d| == 0 then 0 else d[0] + 2 * Digits(d[1..])
  }

  lemma Arrange(p: int, a: int, b: int)
    ensures 2 * (a + p * b) == 2 * a + (2 * p) * b
  {}

  lemma {:induction false} DigitsAppend(d: seq<int>, e: seq<int>)
    ensures Digits(d + e) == Digits(d) + Pow2(|d|) * Digits(e)
  {
    if |d| == 0 {
      assert d + e == e;
    } else {
      assert (d + e)[1..] == d[1..] + e;
      DigitsAppend(d[1..], e);
      Arrange(Pow2(|d| - 1), Digits(d[1..]), Digits(e));
    }
  }

  lemma {:induction false} DigitsUpdate(d: seq<int>, i: nat, v: int)
    requires i < |d|
    ensures Digits(d[i := v]) == Digits(d) + Pow2(i) * (v - d[i])
  {
    if i != 0 {
      assert d[i := v][1..] == d[1..][i - 1 := v];
      DigitsUpdate(d[1..], i - 1, v);
      Arrange(Pow2(i - 1), Digits(d[1..]), v - d[i]);
    } else {
      assert d[i := v][1..] == d[1..];
    }
  }

  predicate Bits(d: seq<int>) {
    forall i :: 0 <= i < |d| ==> d[i] == 0 || d[i] == 1
  }

  /** `e` is `d` with the ones from `at` cleared and the zero at `stop` set. */
  ghost predicate Carried(d: seq<int>, e: seq<int>, at: nat, stop: nat) {
    && at <= stop <= |d| == |e|
    && (forall i :: 0 <= i < at ==> e[i] == d[i])
    && (forall i :: at <= i < stop ==> d[i] == 1 && e[i] == 0)
    && (forall i :: stop < i < |d| ==> e[i] == d[i])
    && (stop < |d| ==> d[stop] == 0 && e[stop] == 1)
  }

  /** A carry that finds its zero is a binary increment at `at`. */
  lemma {:induction false} CarriedValue(d: seq<int>, e: seq<int>, at: nat, stop: nat)
    requires Carried(d, e, at, stop) && stop < |d|
    ensures Digits(e) == Digits(d) + Pow2(at)
    decreases stop - at
  {
    if at == stop {
      assert e == d[at := 1];
      DigitsUpdate(d, at, 1);
    } else {
      DigitsUpdate(d, at, 0);
      CarriedValue(d[at := 0], e, at + 1, stop);
    }
  }

  lemma {:induction false} AllOnes(d: seq<int>)
    requires forall i :: 0 <= i < |d| ==> d[i] == 1
    ensures Digits(d) == Pow2(|d|) - 1
  {
    if |d| != 0 {
      AllOnes(d[1..]);
    }
  }

  /** The carry loop: clears ones from `at` up to the first zero, which it sets. */
  method CarryUp(r: array<int>, at: nat) returns (ghost stop: nat)
    requires at <= r.Length && Bits(r[at..])
    modifies r
    ensures Carried(old(r[..]), r[..], at, stop)
  {
    var k := at;
    while k < r.Length
      invariant at <= k <= r.Length
      invariant forall i :: 0 <= i < at ==> r[i] == old(r[i])
      invariant forall i :: at <= i < k ==> old(r[i]) == 1 && r[i] == 0
      invariant forall i :: k <= i < r.Length ==> r[i] == old(r[i])
    {
      assert old(r[at..])[k - at] == r[k];
      if r[k] == 0 {
        r[k] := 1;
        stop := k;
        return;
      }
      r[k] := 0;
      k := k + 1;
    }
    stop := k;
  }

  /** What the digits from `p` up contribute to the value. */
  ghost function Tail(d: seq<int>, p: nat): int
    requires p <= |d|
  {
    Pow2(p) * Digits(d[p..])
  }

  lemma TailSplit(d: seq<int>, p: nat)
    requires p < |d|
    ensures Tail(d, p) == Pow2(p) * d[p] + Tail(d, p + 1)
  {
    assert d[p..][1..] == d[p + 1..];
    Halve(Pow2(p), d[p], Digits(d[p + 1..]));
  }

  lemma Halve(p: int, a: int, b: int)
    ensures p * (a + 2 * b) == p * a + (2 * p) * b
  {}

  lemma TailAgrees(d: seq<int>, e: seq<int>, p: nat)
    requires p <= |d| == |e| && d[..p] == e[..p]
    ensures Digits(e) - Digits(d) == Tail(e, p) - Tail(d, p)
  {
    assert d == d[..p] + d[p..] && e == e[..p] + e[p..];
    DigitsAppend(d[..p], d[p..]);
    DigitsAppend(e[..p], e[p..]);
  }

  lemma NextMultiple(p: int, u: int, q: int)
    requires 0 < p && p * u < p * q
    ensures u < q && p * u + p <= p * q
  {
    assert u < q;
    MulBound(p, q - u - 1, p, q - u - 1);
    Arrange3(p, q, u);
  }

  lemma Arrange3(p: int, q: int, u: int)
    ensures p * (q - u - 1) == p * q - p * u - p
  {}

  /** A contribution below 2^255 of the digits from `p` leaves room for one more unit at `p`. */
  lemma RoomForCarry(d: seq<int>, p: nat)
    requires p <= 255 && |d| == 256 && Tail(d, p) < Pow2(255)
    ensures Tail(d, p) + Pow2(p) <= Pow2(255)
    ensures Digits(d[p..]) < Pow2(255 - p)
  {
    hide Digits, Pow2;
    Pow2Add(p, 255 - p);
    Pow2Mono(p, 255);
    NextMultiple(Pow2(p), Digits(d[p..]), Pow2(255 - p));
  }

  /** Then the digits from `p` cannot all be ones. */
  lemma NotAllOnes(d: seq<int>, p: nat)
    requires p <= 255 && |d| == 256 && Digits(d[p..]) < Pow2(255 - p)
    ensures exists i :: p <= i < 256 && d[i] != 1
  {
    if forall i :: p <= i < 256 ==> d[i] == 1 {
      AllOnes(d[p..]);
      Pow2Mono(0, 255 - p);
      assert false;
    }
  }

  /** An admissible non-zero digit for window size `w`. */
  predicate WindowDigit(x: int, w: nat)
    requires w >= 1
  {
    x % 2 == 1 && -(Pow2(w - 1) - 1) <= x <= Pow2(w - 1) - 1
  }

  /** Positions below `j` are recoded, the rest is still binary. */
  ghost predicate Recoded(d: seq<int>, j: nat, w: nat) {
    && w >= 1 && j <= |d| == 256
    && (forall i :: 0 <= i < j && d[i] != 0 ==> WindowDigit(d[i], w))
    && (forall i, k :: 0 <= i < j && d[i] != 0 && i < k < i + w && k < 256 ==> d[k] == 0)
    && (forall i :: j <= i < 256 ==> d[i] == 0 || d[i] == 1)
  }

  lemma WindowBounds(w: nat, b: nat)
    requires 2 <= w <= 7 && 1 <= b <= 6
    ensures b + 1 < w ==> 2 * Pow2(b) <= Pow2(w - 1)
    ensures b + 1 == w ==> Pow2(b) == Pow2(w - 1)
    ensures b >= w ==> Pow2(b) >= 2 * Pow2(w - 1)
    ensures Pow2(b) % 2 == 0 && Pow2(b) >= 2
  {
    hide Pow2;
    DoublePow2(b);
    DoublePow2(b - 1);
    DoublePow2(w - 1);
    if b + 1 < w {
      Pow2Mono(b + 1, w - 1);
    }
    if b >= w {
      Pow2Mono(w, b);
    }
    Pow2Mono(b - 1, b);
    Twice(Pow2(b - 1));
  }

  lemma Twice(x: int)
    ensures 2 * x % 2 == 0
  {}

  /** The digit at `j` has absorbed the bits below `j + b`. */
  ghost predicate InWindow(start: seq<int>, d: seq<int>, j: nat, b: nat, w: nat) {
    && 2 <= w <= 7 && |start| == |d| == 256 && 1 <= b <= 7 && j + b <= 256
    && Digits(d) == Digits(start) && d[..j] == start[..j]
    && (forall i :: j < i < j + b ==> d[i] == 0)
    && (forall i :: j + b <= i < 256 ==> d[i] == 0 || d[i] == 1)
    && d[j] % 2 == 1
    && (b < w ==> 1 <= d[j] <= Pow2(b) - 1 && Tail(d, j + b) < Pow2(255))
    && (b >= w ==> WindowDigit(d[j], w) && Tail(d, j + b) <= Pow2(255))
  }

  lemma EnterWindow(d: seq<int>, j: nat, w: nat)
    requires 2 <= w <= 7 && j < |d| == 256 && d[j] == 1 && Recoded(d, j, w) && Tail(d, j) <= Pow2(255)
    ensures InWindow(d, d, j, 1, w)
  {
    hide Digits, Tail;
    TailSplit(d, j);
    Pow2Mono(j, 255);
  }

  lemma TailFrom(d: seq<int>, e: seq<int>, p: nat)
    requires p <= |d| == |e| && (forall i :: p <= i < |d| ==> d[i] == e[i])
    ensures Tail(d, p) == Tail(e, p)
  {
    assert d[p..] == e[p..];
  }

  lemma MovedWeight(p: int, q: int, r: int, v: int)
    requires r == p * q
    ensures p * (v * q) + r * (0 - v) == 0
  {
    assert p * (v * q) == v * (p * q);
  }

  /** Moving a bit from `j + b` down to `j` with weight 2^b keeps the value. */
  lemma AbsorbValue(d: seq<int>, j: nat, b: nat)
    requires b > 0 && j + b < |d|
    ensures Digits(d[j := d[j] + d[j + b] * Pow2(b)][j + b := 0]) == Digits(d)
  {
    hide Digits, Pow2;
    var v := d[j + b];
    var e := d[j := d[j] + v * Pow2(b)];
    DigitsUpdate(d, j, d[j] + v * Pow2(b));
    DigitsUpdate(e, j + b, 0);
    Pow2Add(j, b);
    MovedWeight(Pow2(j), Pow2(b), Pow2(j + b), v);
  }

  lemma AbsorbDigit(x: int, v: int, b: nat, w: nat)
    requires 2 <= w <= 7 && 1 <= b <= 6 && (v == 0 || v == 1) && x % 2 == 1
    requires (b < w ==> 1 <= x <= Pow2(b) - 1) && (b >= w ==> WindowDigit(x, w)) && x + v * Pow2(b) <= Pow2(w - 1) - 1
    ensures var y := x + v * Pow2(b);
            y % 2 == 1 && (b + 1 < w ==> 1 <= y <= Pow2(b + 1) - 1) && (b + 1 >= w ==> WindowDigit(y, w))
  {
    hide Pow2;
    WindowBounds(w, b);
    DoublePow2(b);
    BitTimes(v, Pow2(b));
  }

  lemma TailShrinks(d: seq<int>, p: nat)
    requires p < |d| && (d[p] == 0 || d[p] == 1)
    ensures Tail(d, p + 1) <= Tail(d, p)
  {
    hide Tail, Pow2;
    TailSplit(d, p);
    Pow2Mono(p, p);
  }

  lemma AbsorbStep(start: seq<int>, d: seq<int>, j: nat, b: nat, w: nat)
    requires InWindow(start, d, j, b, w) && j + b < 256 && b <= 6
    requires d[j] + d[j + b] * Pow2(b) <= Pow2(w - 1) - 1
    ensures InWindow(start, d[j := d[j] + d[j + b] * Pow2(b)][j + b := 0], j, b + 1, w)
  {
    hide Digits, Tail, Pow2, WindowDigit;
    var y := d[j] + d[j + b] * Pow2(b);
    var e := d[j := y][j + b := 0];
    AbsorbValue(d, j, b);
    AbsorbDigit(d[j], d[j + b], b, w);
    TailShrinks(d, j + b);
    TailFrom(d, e, j + b + 1);
    assert e[..j] == d[..j];
  }

  lemma BitTimes(v: int, q: int)
    requires v == 0 || v == 1
    ensures v * q == if v == 0 then 0 else q
  {}

  lemma DoublePow2(n: nat)
    ensures Pow2(n + 1) == 2 * Pow2(n)
  {}

  lemma LoweredWeight(p: int, q: int, x: int)
    ensures p * ((x - q) - x) == -(p * q)
  {}

  /** A carry that starts below 2^255 finds its zero and leaves at most 2^255 above it. */
  lemma CarryFits(e: seq<int>, f: seq<int>, p: nat, stop: nat)
    requires |e| == 256 && p < 256 && e[p] == 1 && Tail(e, p) < Pow2(255) && Carried(e, f, p, stop)
    ensures stop < 256 && Digits(f) == Digits(e) + Pow2(p) && f[p] == 0 && Tail(f, p + 1) <= Pow2(255)
  {
    hide Digits, Tail, Pow2;
    RoomForCarry(e, p);
    NotAllOnes(e, p);
    CarriedValue(e, f, p, stop);
    assert f[..p] == e[..p];
    TailAgrees(e, f, p);
    TailSplit(f, p);
    assert f[p] == 0;
  }

  /** Subtracting 2^b at `j` and carrying it in again at `j + b` keeps the value. */
  lemma BorrowValue(d: seq<int>, f: seq<int>, j: nat, b: nat, stop: nat)
    requires |d| == 256 && b > 0 && j + b < 256 && d[j + b] == 1 && Tail(d, j + b) < Pow2(255)
    requires Carried(d[j := d[j] - Pow2(b)], f, j + b, stop)
    ensures stop < 256 && Digits(f) == Digits(d) && f[j + b] == 0 && Tail(f, j + b + 1) <= Pow2(255)
  {
    hide Digits, Tail, Pow2, Carried;
    var e := d[j := d[j] - Pow2(b)];
    DigitsUpdate(d, j, d[j] - Pow2(b));
    TailFrom(d, e, j + b);
    CarryFits(e, f, j + b, stop);
    Pow2Add(j, b);
    LoweredWeight(Pow2(j), Pow2(b), d[j]);
  }

  /** The other way a bit is absorbed; it only happens at b = w - 1. */
  lemma BorrowStep(start: seq<int>, d: seq<int>, f: seq<int>, j: nat, b: nat, w: nat, stop: nat)
    requires InWindow(start, d, j, b, w) && j + b < 256 && b <= 6
    requires d[j] + d[j + b] * Pow2(b) > Pow2(w - 1) - 1
    requires d[j] - d[j + b] * Pow2(b) >= -(Pow2(w - 1) - 1)
    requires Carried(d[j := d[j] - d[j + b] * Pow2(b)], f, j + b, stop)
    ensures stop < 256
    ensures InWindow(start, f, j, b + 1, w)
  {
    hide Digits, Tail, Pow2;
    WindowBounds(w, b);
    BitTimes(d[j + b], Pow2(b));
    assert d[j + b] == 1 && b + 1 == w;
    BorrowValue(d, f, j, b, stop);
    assert f[j] == d[j] - Pow2(b);
    assert f[..j] == d[..j];
    assert forall i :: j < i < j + b ==> f[i] == 0;
  }

  lemma {:induction false} ZerosBetween(d: seq<int>, p: nat, q: nat)
    requires p <= q <= |d| && (forall i :: p <= i < q ==> d[i] == 0)
    ensures Tail(d, p) == Tail(d, q)
    decreases q - p
  {
    if p < q {
      TailSplit(d, p);
      ZerosBetween(d, p + 1, q);
    }
  }

  lemma LeaveWindow(start: seq<int>, d: seq<int>, j: nat, b: nat, w: nat)
    requires InWindow(start, d, j, b, w) && Recoded(start, j, w) && start[j] != 0 && (b >= w || j + b == 256)
    ensures Recoded(d, j + 1, w) && Tail(d, j + 1) <= Pow2(255)
  {
    hide Digits, Tail, Pow2;
    ZerosBetween(d, j + 1, j + b);
    if b < w {
      Pow2Mono(b, w - 1);
    }
    Pow2Mono(0, w - 1);
    forall i | 0 <= i < j + 1 && d[i] != 0 ensures WindowDigit(d[i], w) {
      if i < j {
        assert d[i] == d[..j][i] == start[..j][i] == start[i];
      }
    }
    forall i, k | 0 <= i < j + 1 && d[i] != 0 && i < k < i + w && k < 256 ensures d[k] == 0 {
      if i < j {
        assert d[i] == d[..j][i] == start[..j][i] == start[i];
        assert i + w <= j;
        assert d[k] == d[..j][k] == start[..j][k] == start[k];
      }
    }
  }

  /** Absorbs the bits above a set bit `j` into one odd digit, subtracting and carrying where that keeps it small. */
  method WindowAt(r: array<int>, j: nat, w: nat)
    requires 2 <= w <= 7 && j < r.Length == 256 && r[j] == 1
    requires Recoded(r[..], j, w) && Tail(r[..], j) <= Pow2(255)
    modifies r
    ensures Digits(r[..]) == old(Digits(r[..]))
    ensures Recoded(r[..], j + 1, w) && Tail(r[..], j + 1) <= Pow2(255)
  {
    hide Digits, Tail, Pow2, Recoded, Carried;
    var m := Pow2(w - 1) - 1;
    ghost var start := r[..];
    EnterWindow(start, j, w);
    var b := 1;
    while b < 256 - j && b <= 6
      invariant 1 <= b <= 7 && j + b <= 256
      invariant InWindow(start, r[..], j, b, w)
    {
      ghost var d := r[..];
      if r[j] + r[j + b] * Pow2(b) <= m {
        AbsorbStep(start, d, j, b, w);
        r[j] := r[j] + r[j + b] * Pow2(b);
        r[j + b] := 0;
        assert r[..] == d[j := d[j] + d[j + b] * Pow2(b)][j + b := 0];
      } else if r[j] - r[j + b] * Pow2(b) >= -m {
        r[j] := r[j] - r[j + b] * Pow2(b);
        ghost var e := r[..];
        assert e == d[j := d[j] - d[j + b] * Pow2(b)];
        ghost var stop := CarryUp(r, j + b);
        BorrowStep(start, d, r[..], j, b, w, stop);
      } else if r[j + b] != 0 {
        assert b >= w by {
          MustBreak(start, d, j, b, w);
        }
        break;
      } else {
        assert false by {
          MustBreak(start, d, j, b, w);
        }
      }
      b := b + 1;
    }
    LeaveWindow(start, r[..], j, b, w);
  }

  lemma MustBreak(start: seq<int>, d: seq<int>, j: nat, b: nat, w: nat)
    requires InWindow(start, d, j, b, w) && j + b < 256 && b <= 6
    requires d[j] + d[j + b] * Pow2(b) > Pow2(w - 1) - 1
    requires d[j] - d[j + b] * Pow2(b) < -(Pow2(w - 1) - 1)
    ensures d[j + b] == 1 && b >= w
  {
    hide Digits, Tail, Pow2;
    WindowBounds(w, b);
    BitTimes(d[j + b], Pow2(b));
  }

  /** The low `count` bits of a word, written from `at` up. */
  method WriteBits(r: array<int>, at: nat, v0: u64, count: nat)
    requires at + count <= r.Length && v0 < Pow2(count)
    modifies r
    ensures r[..at] == old(r[..at]) && r[at + count..] == old(r[at + count..])
    ensures Bits(r[at..at + count]) && Digits(r[at..at + count]) == v0
  {
    hide Digits, Pow2;
    var v: u64 := v0;
    NoDigits(r[at..at]);
    for j := 0 to count
      invariant r[..at] == old(r[..at]) && r[at + count..] == old(r[at + count..])
      invariant Bits(r[at..at + j])
      invariant Digits(r[at..at + j]) + Pow2(j) * v == v0
      invariant v < Pow2(count - j)
    {
      ghost var d := r[at..at + j];
      r[at + j] := v % 2;
      assert r[at..at + j + 1] == d + [v % 2];
      BitAppended(d, v);
      DoublePow2(count - j - 1);
      v := v / 2;
    }
    NoDigits([]);
    assert v == 0;
    assert Pow2(count) * v == 0;
  }

  lemma NoDigits(d: seq<int>)
    requires |d| == 0
    ensures Digits(d) == 0 && Pow2(0) == 1
  {}

  lemma BitAppended(d: seq<int>, v: int)
    ensures Digits(d + [v % 2]) + Pow2(|d| + 1) * (v / 2) == Digits(d) + Pow2(|d|) * v
  {
    hide *;
    DigitsAppend(d, [v % 2]);
    OneDigit(v % 2);
    DoublePow2(|d|);
    DivideTwo(v);
    AppendWith(Pow2(|d|), Digits(d), v % 2, v / 2, v);
  }

  lemma AppendWith(p: int, d: int, r: int, q: int, v: int)
    requires v == r + 2 * q
    ensures d + p * r + (2 * p) * q == d + p * v
  {
    Halve(p, r, q);
  }

  lemma OneDigit(x: int)
    ensures Digits([x]) == x
  {}

  lemma DivideTwo(v: int)
    ensures v == v % 2 + 2 * (v / 2)
  {}

  /** The binary expansion of a scalar below 2^256. */
  method ExpandBits(s: Scalar) returns (r: array<int>)
    requires Limbs(s, 0x100000000)
    ensures fresh(r) && r.Length == 256 && Bits(r[..]) && Digits(r[..]) == SVal(s)
  {
    hide Digits, Pow2;
    r := new int[256];
    Pow2Of32();
    Pow2Of56();
    WriteBits(r, 0, s.l0, 56);
    ghost var d0 := r[0..56];
    WriteBits(r, 56, s.l1, 56);
    ghost var d1 := r[56..112];
    assert r[..56] == d0;
    WriteBits(r, 112, s.l2, 56);
    ghost var d2 := r[112..168];
    assert r[..112] == d0 + d1;
    WriteBits(r, 168, s.l3, 56);
    ghost var d3 := r[168..224];
    assert r[..168] == d0 + d1 + d2;
    WriteBits(r, 224, s.l4, 32);
    ghost var d4 := r[224..256];
    assert r[..224] == d0 + d1 + d2 + d3;
    assert r[..] == d0 + (d1 + (d2 + (d3 + d4)));
    DigitsAppend(d0, d1 + (d2 + (d3 + d4)));
    DigitsAppend(d1, d2 + (d3 + d4));
    DigitsAppend(d2, d3 + d4);
    DigitsAppend(d3, d4);
  }

  /** What the recoding promises: the value, and sparse, odd, small digits. */
  ghost predicate SlidingForm(d: seq<int>, w: nat, value: int) {
    Recoded(d, 256, w) && Digits(d) == value
  }

  /** `contract256_slidingwindow_modm`. */
  method SlidingWindow(s: Scalar, w: nat) returns (r: array<int>)
    requires 2 <= w <= 7 && Limbs(s, 0x100000000) && SVal(s) < Pow2(255)
    ensures fresh(r) && r.Length == 256 && SlidingForm(r[..], w, SVal(s))
  {
    hide Digits, Pow2, SVal, Tail;
    r := ExpandBits(s);
    TailWhole(r[..]);
    for j := 0 to 256
      invariant Digits(r[..]) == SVal(s)
      invariant Recoded(r[..], j, w) && Tail(r[..], j) <= Pow2(255)
    {
      if r[j] == 0 {
        TailSplit(r[..], j);
        continue;
      }
      WindowAt(r, j, w);
    }
  }

  lemma TailWhole(d: seq<int>)
    ensures Tail(d, 0) == Digits(d)
  {
    assert d[0..] == d;
  }
}
