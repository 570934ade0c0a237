/** The signed radix-16 recoding used for multiples of the base point (modm-donna-64bit.h). */
module Window4 {
  import opened Words
  import opened ScalarModM

  /** The number a string of digits stands for in base 16, lowest digit first. */
  ghost function Hex(d: seq<int>): int {
    if |d| == 0 then 0 else d[0] + 16 * Hex(d[1..])
  }

  function Pow16(n: nat): nat {
    if n == 0 then 1 else 16 * Pow16(n - 1)
  }

  lemma Arrange(p: int, a: int, b: int)
    ensures 16 * (a + p * b) == 16 * a + (16 * p) * b
  {}

  lemma {:induction false} HexAppend(d: seq<int>, e: seq<int>)
    ensures Hex(d + e) == Hex(d) + Pow16(|d|) * Hex(e)
  {
    if |d| == 0 {
      assert d + e == e;
    } else {
      assert (d + e)[1..] == d[1..] + e;
      HexAppend(d[1..], e);
      Arrange(Pow16(|d| - 1), Hex(d[1..]), Hex(e));
    }
  }

  lemma {:induction false} HexUpdate(d: seq<int>, i: nat, v: int)
    requires i < |d|
    ensures Hex(d[i := v]) == Hex(d) + Pow16(i) * (v - d[i])
  {
    if i != 0 {
      assert d[i := v][1..] == d[1..][i - 1 := v];
      HexUpdate(d[1..], i - 1, v);
      Arrange(Pow16(i - 1), Hex(d[1..]), v - d[i]);
    } else {
      assert d[i := v][1..] == d[1..];
    }
  }

  predicate Quads(d: seq<int>) {
    forall i :: 0 <= i < |d| ==> 0 <= d[i] < 16
  }

  lemma {:induction false} HexNonNegative(d: seq<int>)
    requires Quads(d)
    ensures 0 <= Hex(d)
  {
    if |d| != 0 {
      HexNonNegative(d[1..]);
    }
  }

  /** The top digit is bounded by the value. */
  lemma TopQuad(d: seq<int>)
    requires |d| == 64 && Quads(d)
    ensures Pow16(63) * d[63] <= Hex(d)
  {
    assert d == d[..63] + d[63..];
    HexAppend(d[..63], d[63..]);
    HexNonNegative(d[..63]);
    assert d[63..] == [d[63]] && Hex([d[63]]) == d[63];
  }

  lemma Pow16Step(n: nat)
    ensures Pow16(n + 1) == 16 * Pow16(n)
  {}

  lemma Weigh(p: int, q: int, r: int)
    ensures p * (r + 16 * q) == p * r + (16 * p) * q
  {}

  lemma NoQuads()
    ensures Hex([]) == 0 && Pow16(0) == 1
  {}

  lemma QuadAppended(d: seq<int>, v: int)
    ensures Hex(d + [v % 16]) + Pow16(|d| + 1) * (v / 16) == Hex(d) + Pow16(|d|) * v
  {
    hide *;
    HexAppend(d, [v % 16]);
    OneQuad(v % 16);
    Pow16Step(|d|);
    Weigh(Pow16(|d|), v / 16, v % 16);
    DivideSixteen(v);
  }

  lemma OneQuad(x: int)
    ensures Hex([x]) == x
  {}

  lemma DivideSixteen(v: int)
    ensures v == v % 16 + 16 * (v / 16)
  {}

  /** `count` quads of a word, written from `at` up. */
  method WriteQuads(r: array<int>, at: nat, v0: u64, count: nat)
    requires at + count <= r.Length && v0 < Pow16(count)
    modifies r
    ensures r[..at] == old(r[..at]) && r[at + count..] == old(r[at + count..])
    ensures Quads(r[at..at + count]) && Hex(r[at..at + count]) == v0
  {
    hide Hex, Pow16;
    var v: u64 := v0;
    NoQuads();
    assert r[at..at] == [];
    for j := 0 to count
      invariant r[..at] == old(r[..at]) && r[at + count..] == old(r[at + count..])
      invariant Quads(r[at..at + j])
      invariant Hex(r[at..at + j]) + Pow16(j) * v == v0
      invariant v < Pow16(count - j)
    {
      ghost var d := r[at..at + j];
      r[at + j] := v % 16;
      assert r[at..at + j + 1] == d + [v % 16];
      QuadAppended(d, v);
      Pow16Step(count - j - 1);
      v := v / 16;
    }
    assert v == 0;
    assert Pow16(count) * v == 0;
  }

  lemma {:induction false} Pow16Add(m: nat, n: nat)
    ensures Pow16(m + n) == Pow16(m) * Pow16(n)
  {
    if m != 0 {
      Pow16Add(m - 1, n);
      Reassociate(Pow16(m - 1), Pow16(n));
    }
  }

  lemma Reassociate(a: int, b: int)
    ensures 16 * (a * b) == (16 * a) * b
  {}

  lemma Pow16Of4()
    ensures Pow16(4) == 0x10000 && Pow16(2) == 0x100
  {}

  lemma Pow16Literals()
    ensures Pow16(8) == 0x100000000 && Pow16(14) == 0x100000000000000
    ensures Pow16(63) == 0x1000000000000000000000000000000000000000000000000000000000000000
  {
    hide Pow16;
    Pow16Of4();
    Pow16Add(4, 4);
    Pow16Add(8, 4);
    Pow16Add(12, 2);
    Pow16Add(8, 8);
    Pow16Add(16, 16);
    Pow16Add(32, 16);
    Pow16Add(48, 14);
    Pow16Step(62);
  }

  /** The unsigned radix-16 expansion of a scalar below 2^256. */
  method ExpandQuads(s: Scalar) returns (r: array<int>)
    requires Limbs(s, 0x100000000)
    ensures fresh(r) && r.Length == 64 && Quads(r[..]) && Hex(r[..]) == SVal(s)
  {
    hide Hex, Pow16;
    r := new int[64];
    Pow16Literals();
    WriteQuads(r, 0, s.l0, 14);
    ghost var d0 := r[0..14];
    WriteQuads(r, 14, s.l1, 14);
    ghost var d1 := r[14..28];
    assert r[..14] == d0;
    WriteQuads(r, 28, s.l2, 14);
    ghost var d2 := r[28..42];
    assert r[..28] == d0 + d1;
    WriteQuads(r, 42, s.l3, 14);
    ghost var d3 := r[42..56];
    assert r[..42] == d0 + d1 + d2;
    WriteQuads(r, 56, s.l4, 8);
    ghost var d4 := r[56..64];
    assert r[..56] == d0 + d1 + d2 + d3;
    assert r[..] == d0 + (d1 + (d2 + (d3 + d4)));
    HexAppend(d0, d1 + (d2 + (d3 + d4)));
    HexAppend(d1, d2 + (d3 + d4));
    HexAppend(d2, d3 + d4);
    HexAppend(d3, d4);
  }

  /** Digits below `i` are signed; `carry` is still owed at `i`, on top of at most one unit already added there. */
  ghost predicate Signing(quads: seq<int>, d: seq<int>, i: nat, carry: int) {
    && |quads| == |d| == 64 && i < 64 && 0 <= carry <= 1 && Quads(quads)
    && (forall k :: 0 <= k < i ==> -8 <= d[k] <= 7)
    && quads[i] <= d[i] && d[i] + carry <= quads[i] + 1
    && (forall k :: i < k < 64 ==> d[k] == quads[k])
    && Hex(d) + Pow16(i) * carry == Hex(quads)
  }

  lemma SignStep(quads: seq<int>, d: seq<int>, i: nat, carry: int)
    requires Signing(quads, d, i, carry) && i < 63
    ensures var x := d[i] + carry;
            var c := x % 16 / 8;
            Signing(quads, d[i := x % 16 - 16 * c][i + 1 := d[i + 1] + x / 16], i + 1, c)
  {
    hide Hex, Pow16;
    var x := d[i] + carry;
    var c := x % 16 / 8;
    var e := d[i := x % 16 - 16 * c];
    HexUpdate(d, i, x % 16 - 16 * c);
    HexUpdate(e, i + 1, d[i + 1] + x / 16);
    Pow16Step(i);
    SignWeights(Pow16(i), d[i], carry, x, c);
  }

  lemma SignWeights(p: int, y: int, carry: int, x: int, c: int)
    requires x == y + carry
    ensures p * (x % 16 - 16 * c - y) + (16 * p) * (x / 16) + (16 * p) * c == p * carry
  {
    assert x == x % 16 + 16 * (x / 16);
    var q, r := x / 16, x % 16;
    assert r == y + carry - 16 * q;
    assert p * (carry - 16 * q - 16 * c) == p * carry - (16 * p) * q - (16 * p) * c;
  }

  /** What the recoding promises. */
  ghost predicate Window4Form(d: seq<int>, value: int) {
    |d| == 64 && (forall i :: 0 <= i < 64 ==> -8 <= d[i] <= 8) && Hex(d) == value
  }

  /** `contract256_window4_modm`. */
  method Contract256Window4(s: Scalar) returns (r: array<int>)
    requires Limbs(s, 0x100000000) && SVal(s) < 8 * Pow16(63)
    ensures fresh(r) && r.Length == 64 && Window4Form(r[..], SVal(s))
  {
    hide Hex, Pow16, SVal;
    r := ExpandQuads(s);
    ghost var quads := r[..];
    TopQuad(quads);
    TopIsSmall(Pow16(63), quads[63], Hex(quads));
    var carry := 0;
    assert Pow16(0) * 0 == 0;
    for i := 0 to 63
      invariant Signing(quads, r[..], i, carry)
    {
      ghost var d := r[..];
      SignStep(quads, d, i, carry);
      r[i] := r[i] + carry;
      r[i + 1] := r[i + 1] + r[i] / 16;
      r[i] := r[i] % 16;
      carry := r[i] / 8;
      r[i] := r[i] - carry * 16;
      assert r[..] == d[i := r[i]][i + 1 := r[i + 1]];
    }
    ghost var d := r[..];
    HexUpdate(d, 63, d[63] + carry);
    r[63] := r[63] + carry;
    assert r[..] == d[63 := d[63] + carry];
  }

  lemma TopIsSmall(p: int, q: int, v: int)
    requires 0 <= p && p * q <= v < 8 * p && 0 <= q
    ensures q <= 7
  {
    if q >= 8 {
      MulBound(p, 8, p, q);
    }
  }
}
