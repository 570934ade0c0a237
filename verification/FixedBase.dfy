/** Multiples of the base point from a packed table (ed25519-donna-impl-base.h). */
module FixedBase {
  import opened Words
  import opened Bitwise
  import opened Bytes
  import opened PrimeField
  import opened Curve25519
  import opened Curve25519Bytes
  import opened Conditional
  import opened Edwards
  import opened EdwardsFormulas
  import opened GroupElements
  import opened CurveGroup
  import opened ScalarModM
  import opened Window4
  import opened ScalarMult

  /** y - x, y + x and f x y, for a factor f of 2 d, or of 2 in the rows of position 0. */
  ghost predicate Form(m: int, p: int, t: int, f: int, q: Point) {
    Cong(m, q.y - q.x) && Cong(p, q.y + q.x) && Cong(t, Product(f, Product(q.x, q.y)))
  }

  lemma FormIs(m: int, p: int, t: int, f: int, q: Point)
    ensures Form(m, p, t, f, q) <==> Cong(m, q.y - q.x) && Cong(p, q.y + q.x) && Cong(t, f * (q.x * q.y))
  {
    hide Cong, Product;
    ProductIs(q.x, q.y);
    ProductIs(f, q.x * q.y);
  }

  ghost function Factor(pos: nat): int {
    if pos == 0 then 2 else 2 * D
  }

  /** One packed row: three 32-byte field elements. */
  ghost predicate Row(row: bytes, f: int, q: Point) {
    |row| == 96
    && Form(LeVal(row[..32]) % TWO255, LeVal(row[32..64]) % TWO255, LeVal(row[64..]) % TWO255, f, q)
  }

  /** What `ge25519_niels_base_multiples` is assumed to hold: row 8 pos + i is (i + 1) 256^pos B. */
  ghost predicate BaseTable(table: seq<bytes>) {
    |table| == 256 && forall pos: nat, i: nat :: pos < 32 && i < 8 ==> RowAt(table, pos, i)
  }

  ghost predicate RowAt(table: seq<bytes>, pos: nat, i: nat)
    requires |table| == 256 && pos < 32 && i < 8
  {
    Row(table[pos * 8 + i], Factor(pos), Mult((i + 1) * Pow256(pos), BASE))
  }

  ghost predicate Chosen(t: Niels, f: int, q: Point) {
    Tight(t.ysubx) && Tight(t.xaddy) && Tight(t.t2d) && Form(Val(t.ysubx), Val(t.xaddy), Val(t.t2d), f, q)
  }

  const NEUTRAL_ROW: bytes := [1] + Zeros(31) + [1] + Zeros(31) + Zeros(32)

  lemma NeutralRow(f: int)
    ensures Row(NEUTRAL_ROW, f, NEUTRAL)
  {
    assert NEUTRAL_ROW[..32] == [1] + Zeros(31);
    assert NEUTRAL_ROW[32..64] == [1] + Zeros(31);
    assert NEUTRAL_ROW[64..] == Zeros(32);
    OneAndZeros(31);
    ZerosValue(32);
    assert f * (0 * 1) == 0;
    FormIs(1, 1, 0, f, NEUTRAL);
    CongRefl(0);
    CongRefl(1);
  }

  lemma OneAndZeros(n: nat)
    ensures LeVal([1] + Zeros(n)) == 1
  {
    var s: bytes := [1] + Zeros(n);
    assert s[1..] == Zeros(n);
    ZerosValue(n);
  }

  /** Negating the point swaps y - x with y + x and negates the third element. */
  lemma FormOpposite(m: int, p: int, t: int, f: int, q: Point, n: int)
    requires Form(m, p, t, f, q) && Cong(n, -t)
    ensures Form(p, m, n, f, Minus(q))
  {
    hide Cong, Minus, Form;
    var o := Minus(q);
    FormIs(m, p, t, f, q);
    FormIs(p, m, n, f, o);
    MinusX(q);
    CongRefl(q.y);
    CongAdd(q.y, q.y, o.x, -q.x);
    CongSym(o.y - o.x, q.y + q.x);
    CongSym(o.y + o.x, q.y - q.x);
    CongTrans(p, q.y + q.x, o.y - o.x);
    CongTrans(m, q.y - q.x, o.y + o.x);
    CongMul(o.x, -q.x, q.y, q.y);
    CongScale(f, o.x * q.y, -q.x * q.y);
    assert f * (-q.x * q.y) == -(f * (q.x * q.y));
    CongSym(f * (o.x * o.y), -(f * (q.x * q.y)));
    CongNeg(t, f * (q.x * q.y));
    CongTrans(n, -t, -(f * (q.x * q.y)));
    CongTrans(n, -(f * (q.x * q.y)), f * (o.x * o.y));
  }

  /** `ge25519_scalarmult_base_choose_niels`: the table's form of b 256^pos B. */
  method ChooseNiels(table: seq<bytes>, pos: nat, b: int) returns (t: Niels)
    requires CurveFacts() && BaseTable(table) && pos < 32 && -8 <= b <= 8
    ensures Chosen(t, Factor(pos), Mult(b * Pow256(pos), BASE))
  {
    hide Form, Mult, Pow256, CurveFacts, Minus, LeVal, Val, Factor, OnCurve;
    hide Xor;
    var sign: u32 := b % 256 / 128;
    var mask := Not32(Sub32(sign, 1));
    MaskNegates(b, mask);
    var u: u32 := Xor(Add32(b, mask), mask);
    var packed := NEUTRAL_ROW;
    ghost var f := Factor(pos);
    BaseOnCurve();
    NeutralRow(f);
    MultZeroOne(BASE);
    ghost var q := if u == 0 then NEUTRAL else Mult(u * Pow256(pos), BASE);
    for i := 0 to 8
      invariant Row(packed, f, if 1 <= u <= i then q else NEUTRAL)
    {
      assert RowAt(table, pos, i);
      WindowEqual(u, i + 1);
      packed := MoveConditionalBytes(packed, table[pos * 8 + i], Sub32(Xor(u, i + 1), 1) / 0x8000_0000);
    }
    assert Row(packed, f, q);
    var ysubx := Expand(packed[..32]);
    var xaddy := Expand(packed[32..64]);
    var t2d := Expand(packed[64..]);
    assert 0 * Pow256(pos) == 0;
    assert q == Mult(u * Pow256(pos), BASE);
    CoveredByTwoP(t2d);
    var neg := Neg(t2d);
    if sign == 1 {
      FormOpposite(Val(ysubx), Val(xaddy), Val(t2d), f, q, Val(neg));
      MultNeg(u * Pow256(pos), BASE);
      assert -(u * Pow256(pos)) == b * Pow256(pos);
    }
    ysubx, xaddy := SwapConditional(ysubx, xaddy, sign);
    t2d, neg := SwapConditional(t2d, neg, sign);
    t := Niels(ysubx, xaddy, t2d);
  }

  lemma CoveredByTwoP(a: Fe)
    requires Below(a, 0x8000000000000)
    ensures Covers(ZERO, TWO_P, a)
  {}

  /** A row of position 0, where T is 2 x y, is an extended point with Z = 2. */
  lemma StartingPoint(m: int, p: int, t: int, x: int, y: int, q: Point)
    requires Form(m, p, t, 2, q) && Cong(x, p - m) && Cong(y, p + m)
    ensures Projects(x, y, 2, q) && Extends(t, 2, q)
  {
    hide Cong, Unit, Projects, Extends, Form;
    FormIs(m, p, t, 2, q);
    ProjectsIs(x, y, 2, q);
    ExtendsIs(t, 2, q);
    CongAdd(p, q.y + q.x, m, q.y - q.x);
    CongTrans(x, p - m, q.x * 2);
    CongTrans(y, p + m, q.y * 2);
    UnitTwo();
    assert 2 * (q.x * q.y) == (q.x * q.y) * 2;
  }

  lemma FormPrepares(t: Niels, q: Point)
    requires Chosen(t, 2 * D, q) && OnCurve(q)
    ensures CachedAffine(t, q)
  {
    hide Cong, OnCurve, Val, Prepared, Form;
    FormIs(Val(t.ysubx), Val(t.xaddy), Val(t.t2d), 2 * D, q);
    PreparedIs(Val(t.ysubx), Val(t.xaddy), 1, Val(t.t2d), q);
    UnitOne();
    assert (q.y - q.x) * 1 == q.y - q.x && (q.y + q.x) * 1 == q.y + q.x;
    assert 2 * D * (q.x * q.y) * 1 == 2 * D * (q.x * q.y);
  }

  /** Multiplying T by d turns a row of position 0 into the form of the others. */
  lemma TimesD(t: int, r: int, p: int)
    requires Cong(t, 2 * p) && Cong(r, t * D)
    ensures Cong(r, 2 * D * p)
  {
    hide Cong;
    var d := D;
    CongRefl(d);
    CongMul(t, 2 * p, d, d);
    assert 2 * p * d == 2 * d * p;
    CongTrans(r, t * d, 2 * D * p);
  }

  /** Digits at even and at odd positions, each in base 256. */
  ghost function EvenSum(d: seq<int>, n: nat): int
    requires 2 * n <= |d|
  {
    if n == 0 then 0 else EvenSum(d, n - 1) + d[2 * n - 2] * Pow256(n - 1)
  }

  ghost function OddSum(d: seq<int>, n: nat): int
    requires 2 * n <= |d|
  {
    if n == 0 then 0 else OddSum(d, n - 1) + d[2 * n - 1] * Pow256(n - 1)
  }

  lemma {:induction false} Pow16Of(n: nat)
    ensures Pow16(2 * n) == Pow256(n)
  {
    if n != 0 {
      Pow16Of(n - 1);
      assert Pow16(2 * n) == 16 * Pow16(2 * n - 1) == 256 * Pow16(2 * n - 2);
    }
  }

  lemma {:induction false} SplitDigits(d: seq<int>, n: nat)
    requires 2 * n <= |d|
    ensures Hex(d[..2 * n]) == EvenSum(d, n) + 16 * OddSum(d, n)
  {
    if n != 0 {
      SplitDigits(d, n - 1);
      var e, o := d[2 * n - 2], d[2 * n - 1];
      assert d[..2 * n] == d[..2 * n - 2] + [e, o];
      HexAppend(d[..2 * n - 2], [e, o]);
      assert [e, o][1..] == [o];
      assert Hex([o]) == o;
      Pow16Of(n - 1);
      SplitTerms(Pow256(n - 1), e, o);
    }
  }

  lemma SplitTerms(p: int, e: int, o: int)
    ensures p * (e + 16 * o) == e * p + 16 * (o * p)
  {}

  method AddDigit(r0: Ge, table: seq<bytes>, pos: nat, b: int, ghost m: int) returns (r: Ge)
    requires CurveFacts() && BaseTable(table) && 0 < pos < 32 && -8 <= b <= 8
    requires Full(r0, Mult(m, BASE))
    ensures Full(r, Mult(m + b * Pow256(pos), BASE))
  {
    hide Full, Mult, Pow256, CurveFacts, BaseTable, Chosen, CachedAffine, OnCurve, Plus, Addable;
    var t := ChooseNiels(table, pos, b);
    ghost var n := b * Pow256(pos);
    BaseOnCurve();
    MultOnCurve(m, BASE);
    MultOnCurve(n, BASE);
    FormPrepares(t, Mult(n, BASE));
    AlwaysAddable(Mult(m, BASE), Mult(n, BASE));
    r := Nielsadd2(r0, t, Mult(m, BASE), Mult(n, BASE));
    MultAdd(m, n, BASE);
  }

  /** The first addend: position 0 taken as an extended point. */
  method FirstDigit(table: seq<bytes>, b: int) returns (r: Ge)
    requires CurveFacts() && BaseTable(table) && -8 <= b <= 8
    ensures Full(r, Mult(b, BASE))
  {
    hide Mult, CurveFacts, BaseTable, OnCurve, Val, Poly, Cong, Covers, Projects, Extends, Form;
    var t := ChooseNiels(table, 0, b);
    assert b * Pow256(0) == b;
    TightCovers(t.xaddy, t.ysubx);
    var x := SubReduce(t.xaddy, t.ysubx);
    var y := AddReduce(t.xaddy, t.ysubx);
    var z := Fe(2, 0, 0, 0, 0);
    PolyConstant(2);
    r := Ge(x, y, z, t.t2d);
    StartingPoint(Val(t.ysubx), Val(t.xaddy), Val(t.t2d), Val(x), Val(y), Mult(b, BASE));
    BaseOnCurve();
    MultOnCurve(b, BASE);
  }

  /** Position 0 as an addend: its T is first multiplied by d. */
  method AddZeroDigit(r0: Ge, table: seq<bytes>, b: int, ghost m: int) returns (r: Ge)
    requires CurveFacts() && BaseTable(table) && -8 <= b <= 8
    requires Full(r0, Mult(m, BASE))
    ensures Full(r, Mult(m + b, BASE))
  {
    hide Full, Mult, CurveFacts, BaseTable, CachedAffine, OnCurve, Plus, Addable, Val, Poly, Cong, Form;
    var t := ChooseNiels(table, 0, b);
    assert b * Pow256(0) == b;
    ghost var q := Mult(b, BASE);
    var td := Mul(t.t2d, ECD);
    FormIs(Val(t.ysubx), Val(t.xaddy), Val(t.t2d), 2, q);
    FormIs(Val(t.ysubx), Val(t.xaddy), Val(td), 2 * D, q);
    EcdValue();
    TimesD(Val(t.t2d), Val(td), q.x * q.y);
    t := t.(t2d := td);
    BaseOnCurve();
    MultOnCurve(m, BASE);
    MultOnCurve(b, BASE);
    FormPrepares(t, q);
    AlwaysAddable(Mult(m, BASE), q);
    r := Nielsadd2(r0, t, Mult(m, BASE), q);
    MultAdd(m, b, BASE);
  }

  method FourDoublings(r0: Ge, ghost m: int) returns (r: Ge)
    requires CurveFacts() && Full(r0, Mult(m, BASE))
    ensures Full(r, Mult(16 * m, BASE))
  {
    hide Full, Partial, Mult, CurveFacts, OnCurve, Plus, Addable;
    BaseOnCurve();
    PartialOfFull(r0, Mult(m, BASE));
    MultOnCurve(m, BASE);
    AlwaysAddable(Mult(m, BASE), Mult(m, BASE));
    r := DoublePartial(r0, Mult(m, BASE));
    MultAdd(m, m, BASE);
    MultOnCurve(2 * m, BASE);
    AlwaysAddable(Mult(2 * m, BASE), Mult(2 * m, BASE));
    r := DoublePartial(r, Mult(2 * m, BASE));
    MultAdd(2 * m, 2 * m, BASE);
    MultOnCurve(4 * m, BASE);
    AlwaysAddable(Mult(4 * m, BASE), Mult(4 * m, BASE));
    r := DoublePartial(r, Mult(4 * m, BASE));
    MultAdd(4 * m, 4 * m, BASE);
    MultOnCurve(8 * m, BASE);
    AlwaysAddable(Mult(8 * m, BASE), Mult(8 * m, BASE));
    r := Double(r, Mult(8 * m, BASE));
    MultAdd(8 * m, 8 * m, BASE);
  }

  /** `ge25519_scalarmult_base_niels`: [s] B. */
  method ScalarmultBase(table: seq<bytes>, s: Scalar) returns (r: Ge)
    requires CurveFacts() && BaseTable(table)
    requires Limbs(s, 0x100000000) && SVal(s) < 8 * Pow16(63)
    ensures Full(r, Mult(SVal(s), BASE))
  {
    hide Full, Mult, CurveFacts, BaseTable, Hex, Pow256, Pow16, SVal, EvenSum, OddSum;
    var digits := Contract256Window4(s);
    var b := digits[..];
    r := FirstDigit(table, b[1]);
    FirstSums(b);
    var i := 3;
    while i < 64
      invariant 3 <= i <= 65 && i % 2 == 1
      invariant Full(r, Mult(OddSum(b, i / 2), BASE))
    {
      NextOdd(b, i / 2);
      r := AddDigit(r, table, i / 2, b[i], OddSum(b, i / 2));
      i := i + 2;
    }
    r := FourDoublings(r, OddSum(b, 32));
    ghost var m := 16 * OddSum(b, 32);
    r := AddZeroDigit(r, table, b[0], m);
    i := 2;
    while i < 64
      invariant 2 <= i <= 64 && i % 2 == 0
      invariant Full(r, Mult(m + EvenSum(b, i / 2), BASE))
    {
      NextEven(b, i / 2);
      r := AddDigit(r, table, i / 2, b[i], m + EvenSum(b, i / 2));
      i := i + 2;
    }
    SplitDigits(b, 32);
    assert b[..64] == b;
  }

  lemma FirstSums(d: seq<int>)
    requires |d| == 64
    ensures OddSum(d, 1) == d[1] && EvenSum(d, 1) == d[0]
  {
    assert d[1] * Pow256(0) == d[1] && d[0] * Pow256(0) == d[0];
  }

  lemma NextOdd(d: seq<int>, n: nat)
    requires 2 * n + 2 <= |d|
    ensures OddSum(d, n + 1) == OddSum(d, n) + d[2 * n + 1] * Pow256(n)
  {}

  lemma NextEven(d: seq<int>, n: nat)
    requires 2 * n + 2 <= |d|
    ensures EvenSum(d, n + 1) == EvenSum(d, n) + d[2 * n] * Pow256(n)
  {}
}
