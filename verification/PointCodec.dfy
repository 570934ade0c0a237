/** Points to and from 32 bytes (ed25519-donna-impl-base.h). */
module PointCodec {
  import opened Words
  import opened Bitwise
  import opened Bytes
  import opened PrimeField
  import opened Curve25519
  import opened Curve25519Bytes
  import opened PowerChains
  import opened Edwards
  import opened EdwardsFormulas
  import opened GroupElements

  /** The encoding of a point: y in 255 bits, and the parity of x in the top bit. */
  ghost predicate Encodes(b: bytes, a: Point) {
    |b| == 32 && LeVal(b) == a.y + TWO255 * (a.x % 2)
  }

  lemma EncodingUnique(b: bytes, c: bytes, a: Point)
    requires Encodes(b, a) && Encodes(c, a)
    ensures b == c
  {
    LeValInjective(b, c);
  }

  /** Two points of the same encoding have the same y and the same parity of x. */
  lemma EncodingDetermines(b: bytes, a: Point, c: Point)
    requires Encodes(b, a) && Encodes(b, c) && OnCurve(a) && OnCurve(c)
    ensures a.y == c.y && a.x % 2 == c.x % 2
  {
    hide OnCurve, LeVal;
    assert 0 <= a.y < P && 0 <= c.y < P by {
      InRange(a);
      InRange(c);
    }
  }

  lemma InRange(a: Point)
    requires OnCurve(a)
    ensures 0 <= a.x < P && 0 <= a.y < P
  {}

  /** `z^(p-2)` inverts z. */
  ghost predicate Invertible(z: int) {
    Cong(z * Pow(z, P - 2), 1)
  }

  lemma UnitsInvert(z: int)
    requires PrimeFacts() && Unit(z)
    ensures Invertible(z)
  {
    hide PrimeFacts, Unit, Cong;
    UnitIffNonZero(z);
    FermatInverse(z);
  }

  lemma {:induction false} OneToAny(n: nat)
    ensures Pow(1, n) == 1
  {
    if n != 0 {
      OneToAny(n - 1);
    }
  }

  lemma OneInverts()
    ensures Invertible(1)
  {
    hide Cong, Pow;
    OneToAny(P - 2);
    CongRefl(1);
  }

  /** x = X / Z. */
  lemma Normalised(x: int, z: int, zi: int, t: int, c: int)
    requires Cong(x, c * z) && Cong(zi, Pow(z, P - 2)) && Invertible(z) && Cong(t, x * zi)
    ensures Cong(t, c)
  {
    hide Cong, Pow;
    var w := Pow(z, P - 2);
    CongMul(x, c * z, zi, w);
    CongScale(c, z * w, 1);
    assert c * z * w == c * (z * w);
    CongTrans(t, x * zi, c * z * w);
    CongTrans(t, c * (z * w), c);
  }

  lemma CanonicalValue(t: int, c: int)
    requires Cong(t, c) && 0 <= c < P
    ensures t % P == c
  {
    hide Cong;
    CongMod(t, c);
  }

  lemma LastByte(r: bytes, v: nat)
    requires |r| == 32 && r[31] as int + v < 256
    ensures LeVal(r[31 := r[31] + v]) == LeVal(r) + TWO248 * v
    ensures LeVal(r) == LeVal(r[..31]) + TWO248 * r[31] as int
  {
    var s := r[31 := r[31] + v];
    assert r == r[..31] + [r[31]] && s == r[..31] + [r[31] + v];
    LeValAppend(r[..31], [r[31]]);
    LeValAppend(r[..31], [r[31] + v]);
    Pow256Of31();
    Singleton(r[31]);
    Singleton(r[31] + v);
  }

  lemma LowBit(b: bytes)
    requires |b| > 0
    ensures b[0] % 2 == LeVal(b) % 2
  {
    LowBitWith(LeVal(b), b[0], LeVal(b[1..]));
  }

  lemma LowBitWith(x: int, b: int, rest: int)
    requires x == b + 256 * rest
    ensures b % 2 == x % 2
  {}

  /** `ge25519_pack`. */
  method Pack(p: Ge, ghost a: Point) returns (r: bytes)
    requires Partial(p, a) && Invertible(Val(p.z))
    ensures Encodes(r, a)
  {
    hide Val, Poly, Cong, Pow, LeVal, Unit, Projects;
    ProjectsIs(Val(p.x), Val(p.y), Val(p.z), a);
    var zi := Recip(p.z);
    var tx := Mul(p.x, zi);
    var ty := Mul(p.y, zi);
    Normalised(Val(p.x), Val(p.z), Val(zi), Val(tx), a.x);
    Normalised(Val(p.y), Val(p.z), Val(zi), Val(ty), a.y);
    CanonicalValue(Val(tx), a.x);
    CanonicalValue(Val(ty), a.y);
    r := Contract(ty);
    var parity := Contract(tx);
    LowBit(parity);
    LastByte(r, 0);
    assert r[31] < 128;
    // `r[31] ^= (parity[0] & 1) << 7`, on a byte whose top bit is clear
    LastByte(r, parity[0] % 2 * 128);
    r := r[31 := r[31] + parity[0] % 2 * 128];
  }

  // ---- square roots ----

  const EXP_QUARTER := 0x1ffffffffffffffffffffffffffffffffffffffffffffffffffffffffffffffb  // (p - 1) / 4

  /** u v^3 (u v^7)^((p-5)/8). */
  function Candidate(u: int, v: int): int {
    Pow(u * Pow(v, 7), EXP_ROOT) * Pow(v, 3) * u
  }

  lemma SmallPowers(v: int)
    ensures Pow(v, 2) == v * v && Pow(v, 3) == v * v * v && Pow(v, 7) == (v * v * v) * (v * v * v) * v
  {
    hide Pow;
    PowNone(v);
    PowStep(v, 1);
    PowStep(v, 2);
    PowStep(v, 3);
    PowAdd(v, 3, 3);
    PowStep(v, 7);
  }

  lemma PowNone(v: int)
    ensures Pow(v, 0) == 1
  {
  }

  /** The candidate root of num / den, and den times its square. */
  method Root(num: Fe, den: Fe) returns (x: Fe, t: Fe)
    requires Tight(num) && Below(den, 0x10000000000000)
    ensures Tight(x) && Tight(t)
    ensures Cong(Val(x), Candidate(Val(num), Val(den)))
    ensures Cong(Val(t), Val(x) * Val(x) * Val(den))
  {
    hide Val, Poly, Cong, Pow;
    ghost var u, v := Val(num), Val(den);
    t := Square(den);
    var d3 := Mul(t, den);
    CongRefl(v);
    CongRefl(u);
    SmallPowers(v);
    MulCong(Val(d3), Val(t), v * v, v, v);
    x := Square(d3);
    MulCong(Val(x), Val(d3), Pow(v, 3), Val(d3), Pow(v, 3));
    ghost var x1 := Val(x);
    x := Mul(x, den);
    MulCong(Val(x), x1, Pow(v, 3) * Pow(v, 3), v, v);
    ghost var x2 := Val(x);
    x := Mul(x, num);
    MulCong(Val(x), x2, Pow(v, 7), u, u);
    assert Pow(v, 7) * u == u * Pow(v, 7);
    ghost var x3 := Val(x);
    x := PowTwo252m3(x);
    CongPow(x3, u * Pow(v, 7), EXP_ROOT);
    CongTrans(Val(x), Pow(x3, EXP_ROOT), Pow(u * Pow(v, 7), EXP_ROOT));
    ghost var x4 := Val(x);
    x := Mul(x, d3);
    MulCong(Val(x), x4, Pow(u * Pow(v, 7), EXP_ROOT), Val(d3), Pow(v, 3));
    ghost var x5 := Val(x);
    x := Mul(x, num);
    MulCong(Val(x), x5, Pow(u * Pow(v, 7), EXP_ROOT) * Pow(v, 3), u, u);
    t := Square(x);
    ghost var t1 := Val(t);
    t := Mul(t, den);
    MulCong(Val(t), t1, Val(x) * Val(x), v, v);
  }

  const SQRTNEG1 := Fe(0x00061b274a0ea0b0, 0x0000d5a5fc8f189d, 0x0007ef5e9cbd0c60, 0x00078595a6804c9e, 0x0002b8324804fc1d)

  lemma SqrtNeg1Value()
    ensures Val(SQRTNEG1) == SQRT_MINUS_ONE
  {}

  /** `ed25519_verify`: the differences of all bytes, collected in one, tell whether there are any. */
  method Verify(x: bytes, y: bytes) returns (same: u64)
    requires |x| == |y|
    ensures same == if x == y then 1 else 0
  {
    hide Or, Xor;
    var differentbits: u8 := 0;
    for i := 0 to |x|
      invariant differentbits == 0 <==> x[..i] == y[..i]
    {
      assert x[..i + 1] == x[..i] + [x[i]] && y[..i + 1] == y[..i] + [y[i]];
      CollectsDifference(differentbits, x[i], y[i]);
      differentbits := Or(differentbits, Xor(x[i], y[i]));
    }
    assert x[..|x|] == x && y[..|y|] == y;
    NoDifference(differentbits);
    same := Sub64(differentbits, 1) / 0x100 % 2;
  }

  /** Does `a` contract to the zero bytes, that is, is it 0 modulo p. */
  method IsZero(a: Fe) returns (r: bool)
    requires Tight(a)
    ensures r == Cong(Val(a), 0)
  {
    hide LeVal, Val, Poly, Cong;
    var check := Contract(a);
    var same := Verify(check, Zeros(32));
    r := same == 1;
    ZeroBytes(check, Val(a));
  }

  lemma ZeroBytes(check: bytes, v: int)
    requires |check| == 32 && LeVal(check) == v % P
    ensures check == Zeros(32) <==> Cong(v, 0)
  {
    hide LeVal, Cong;
    ZerosValue(32);
    CongMod(v, 0);
    if LeVal(check) == 0 {
      LeValInjective(check, Zeros(32));
    }
  }

  /** den x^2 = num is the curve equation. */
  lemma RootOnCurve(x: int, y: int, num: int, den: int)
    requires Cong(num, y * y - 1) && Cong(den, D * (y * y) + 1)
    ensures Cong(x * x * den, num) <==> Eqn(x, y)
  {
    hide Cong, Eqn;
    EqnIs(x, y);
    CongScale(x * x, den, D * (y * y) + 1);
    var l, r := x * x * den, x * x * (D * (y * y) + 1);
    assert r == D * ((x * y) * (x * y)) + x * x by {
      var d := D;
      assert x * x * (d * (y * y) + 1) == d * ((x * x) * (y * y)) + x * x;
      SwapFactors(x, x, y, y);
    }
    var s := D * ((x * y) * (x * y));
    Rearrange(x * x, y * y, s, l, r, num);
  }

  lemma Rearrange(xx: int, yy: int, s: int, l: int, r: int, num: int)
    requires Cong(l, r) && r == s + xx && Cong(num, yy - 1)
    ensures Cong(l, num) <==> Cong(yy - xx, 1 + s)
  {
    hide Cong;
    var j := CongQuotient(l, r);
    var k := CongQuotient(num, yy - 1);
    CongAlike(l, num, 1 + s, yy - xx, j - k);
    if Cong(yy - xx, 1 + s) {
      CongSym(yy - xx, 1 + s);
    }
    if Cong(1 + s, yy - xx) {
      CongSym(1 + s, yy - xx);
    }
  }

  /** Multiplying a root of -num / den by the square root of -1 gives a root of num / den. */
  lemma OtherRoot(x: int, z: int, num: int, den: int)
    requires Cong(x * x * den + num, 0) && Cong(z, x * SQRT_MINUS_ONE)
    ensures Cong(z * z * den, num)
  {
    hide Cong;
    var i := SQRT_MINUS_ONE;
    Constants();
    CongRefl(den);
    CongMul(z, x * i, z, x * i);
    SwapFactors(x, i, x, i);
    CongScale(x * x, i * i, -1);
    CongTrans(z * z, (x * x) * (i * i), x * x * -1);
    CongMul(z * z, x * x * -1, den, den);
    assert x * x * -1 * den == -(x * x * den);
    Opposite(x * x * den, num);
    CongTrans(z * z * den, -(x * x * den), num);
  }

  lemma Opposite(l: int, num: int)
    requires Cong(l + num, 0)
    ensures Cong(-l, num)
  {
    hide Cong;
    var k := CongQuotient(l + num, 0);
    CongByMultiple(-l, num, -k);
  }

  /** What a successful decoding is: the point with the given y and the opposite sign bit. */
  ghost predicate DecodesNegative(p: bytes, a: Point) {
    |p| == 32 && OnCurve(a) && a.y == LeVal(p) % TWO255 % P
    && (a.x != 0 ==> a.x % 2 == 1 - LeVal(p) / TWO255)
  }

  /** Some x completes the y of the encoding to a curve point. */
  ghost predicate HasRoot(p: bytes) {
    exists x :: Eqn(x, LeVal(p) % TWO255)
  }

  // ---- completeness of the square root, given that p is prime ----

  /** den times the square of the candidate is num (num den^7)^((p-1)/4), as integers. */
  lemma CandidateSquare(u: int, v: int)
    ensures Candidate(u, v) * Candidate(u, v) * v == Pow(u * Pow(v, 7), EXP_QUARTER) * u
  {
    hide Pow;
    var w, v3 := u * Pow(v, 7), Pow(v, 3);
    var r := Pow(w, EXP_ROOT);
    SmallPowers(v);
    PowAdd(w, EXP_ROOT, EXP_ROOT);
    PowStep(w, EXP_QUARTER);
    assert Pow(w, EXP_QUARTER) == w * (r * r);
    SquareTerms(r, v3, u, v, Pow(v, 7));
  }

  lemma SquareTerms(r: int, v3: int, u: int, v: int, v7: int)
    requires v7 == v3 * v3 * v
    ensures (r * v3 * u) * (r * v3 * u) * v == (u * v7) * (r * r) * u
  {
    var a := r * r;
    assert (r * v3 * u) * (r * v3 * u) == a * (v3 * v3) * (u * u) by {
      Interchange(r * v3, u, r * v3, u);
      Interchange(r, v3, r, v3);
    }
    var b, c := v3 * v3, u * u;
    Shuffle(a, b, c, v);
    assert (u * v7) * a * u == a * v7 * c by {
      Shuffle2(u, v7, a);
    }
  }

  lemma Shuffle(a: int, b: int, c: int, v: int)
    ensures a * b * c * v == a * (b * v) * c
  {
    Reassociate(a * b, c, v);
    Reassociate(a * b, v, c);
    Reassociate(a, b, v);
  }

  lemma Shuffle2(u: int, v7: int, a: int)
    ensures (u * v7) * a * u == a * v7 * (u * u)
  {
    Interchange(u, v7, a, u);
    assert (u * v7) * a * u == (u * v7) * (a * u);
    assert (u * a) * (v7 * u) == (a * v7) * (u * u) by {
      Interchange(a, u, v7, u);
    }
  }

  lemma PlusMinusOne(s: int)
    requires PrimeFacts() && Cong(s * s, 1)
    ensures Cong(s, 1) || Cong(s, -1)
  {
    hide PrimeFacts;
    assert (s - 1) * (s + 1) == s * s - 1;
    ZeroFactor(s - 1, s + 1);
  }

  /** If num / den has a root, (num den^7)^((p-1)/4) is 1 or -1. */
  lemma QuarterPower(u: int, v: int, x0: int)
    requires PrimeFacts() && Cong(x0 * x0 * v, u) && !Cong(u, 0)
    ensures Cong(Pow(u * Pow(v, 7), EXP_QUARTER), 1) || Cong(Pow(u * Pow(v, 7), EXP_QUARTER), -1)
  {
    hide PrimeFacts, Cong, Pow;
    NonZeroFactor(v, x0 * x0, u);
    assert v * (x0 * x0) == x0 * x0 * v;
    NonZeroFactor(x0, x0 * v, u);
    assert x0 * (x0 * v) == x0 * x0 * v;
    var w := u * Pow(v, 7);
    CongSym(x0 * x0 * v, u);
    CongRefl(Pow(v, 7));
    CongMul(u, x0 * x0 * v, Pow(v, 7), Pow(v, 7));
    PowStep(v, 8);
    assert x0 * x0 * v * Pow(v, 7) == (x0 * x0) * Pow(v, 8);
    CongPow(w, (x0 * x0) * Pow(v, 8), EXP_QUARTER);
    PowProduct(x0 * x0, Pow(v, 8), EXP_QUARTER);
    SmallPowers(x0);
    PowMul(x0, 2, EXP_QUARTER);
    PowMul(v, 8, EXP_QUARTER);
    var s, t := Pow(x0, 2 * EXP_QUARTER), Pow(v, 8 * EXP_QUARTER);
    assert Pow((x0 * x0) * Pow(v, 8), EXP_QUARTER) == s * t;
    FermatOne(v);
    PowAdd(v, P - 1, P - 1);
    CongMul(Pow(v, P - 1), 1, Pow(v, P - 1), 1);
    CongScale(s, t, 1);
    CongTrans(Pow(w, EXP_QUARTER), s * t, s);
    FermatOne(x0);
    PowAdd(x0, 2 * EXP_QUARTER, 2 * EXP_QUARTER);
    PlusMinusOne(s);
    if Cong(s, 1) {
      CongTrans(Pow(w, EXP_QUARTER), s, 1);
    } else {
      CongTrans(Pow(w, EXP_QUARTER), s, -1);
    }
  }

  lemma FermatOne(a: int)
    requires PrimeFacts() && !Cong(a, 0)
    ensures Cong(Pow(a, P - 1), 1)
  {
    hide NoZeroDivisors, Cong, Pow;
    assert Fermat(a);
  }

  /** The candidate, or its negated square, always works when a root exists. */
  lemma CandidateWorks(u: int, v: int, x0: int, x: int)
    requires PrimeFacts() && Cong(x0 * x0 * v, u) && Cong(x, Candidate(u, v))
    ensures Cong(x * x * v, u) || Cong(x * x * v + u, 0)
  {
    hide PrimeFacts, Cong, Pow, Candidate;
    var c := Candidate(u, v);
    CongMul(x, c, x, c);
    CongRefl(v);
    CongMul(x * x, c * c, v, v);
    CandidateSquare(u, v);
    var q := Pow(u * Pow(v, 7), EXP_QUARTER);
    if Cong(u, 0) {
      CongScale(q, u, 0);
      CongTrans(x * x * v, q * u, 0);
      CongSym(u, 0);
      CongTrans(x * x * v, 0, u);
    } else {
      QuarterPower(u, v, x0);
      CongRefl(u);
      if Cong(q, 1) {
        CongMul(q, 1, u, u);
        CongTrans(x * x * v, q * u, u);
      } else {
        CongMul(q, -1, u, u);
        CongTrans(x * x * v, q * u, -u);
        CongAdd(x * x * v, -u, u, u);
      }
    }
  }

  // ---- decoding ----

  lemma NumDen(y: int, y2: int, dy2: int, num: int, den: int)
    requires Cong(y2, y * y) && Cong(dy2, y2 * D) && Cong(num, y2 - 1) && den == dy2 + 1
    ensures Cong(num, y * y - 1) && Cong(den, D * (y * y) + 1)
  {
    hide Cong;
    CongRefl(1);
    CongAdd(y2, y * y, 1, 1);
    CongTrans(num, y2 - 1, y * y - 1);
    var d := D;
    CongRefl(d);
    CongMul(y2, y * y, d, d);
    CongTrans(dy2, y2 * d, y * y * d);
    assert y * y * d == d * (y * y);
    CongAdd(dy2, D * (y * y), 1, 1);
  }

  lemma SignBitOf(p: bytes)
    requires |p| == 32
    ensures p[31] / 128 == LeVal(p) / TWO255
  {
    LastByte(p, 0);
    LeValBound(p[..31]);
    Pow256Of31();
  }

  /** Whichever root the sign test keeps, its parity is the opposite of the sign bit. */
  lemma ChosenSign(x: int, z: int, parity: int)
    requires 0 <= parity <= 1
    requires if x % P % 2 == parity then Cong(z, -x) else z == x
    ensures z % P != 0 ==> z % P % 2 == 1 - parity
  {
    hide Cong;
    CongMod(z, -x);
    OtherParity(x);
  }

  lemma OtherParity(x: int)
    ensures -x % P != 0 ==> -x % P % 2 == 1 - x % P % 2
  {
    DivideP(x);
    if x % P == 0 {
      RemainderIs(-x, -(x / P), 0);
    } else {
      RemainderIs(-x, -(x / P) - 1, P - x % P);
      OddDifference(x % P);
    }
  }

  lemma OddDifference(r: int)
    ensures (P - r) % 2 == 1 - r % 2
  {}

  lemma NegativeMod(x: int)
    requires 0 <= x < P
    ensures -x % P == if x == 0 then 0 else P - x
  {
    RemainderIs(-x, if x == 0 then 0 else -1, if x == 0 then 0 else P - x);
  }

  lemma SquareOfSign(x: int, z: int, c: int)
    requires z == x || Cong(z, -x)
    ensures Cong(z * z * c, x * x * c)
  {
    hide Cong;
    if z != x {
      CongMul(z, -x, z, -x);
      assert -x * -x == x * x;
      CongRefl(c);
      CongMul(z * z, x * x, c, c);
    } else {
      CongRefl(z * z * c);
    }
  }

  lemma AffineForm(x: int, y: int, t: int)
    requires Cong(t, x * y)
    ensures Projects(x, y, 1, Point(Residue(x), Residue(y))) && Extends(t, 1, Point(Residue(x), Residue(y)))
  {
    hide Cong, Unit, Residue, Projects, Extends;
    ProjectsIs(x, y, 1, Point(Residue(x), Residue(y)));
    ExtendsIs(t, 1, Point(Residue(x), Residue(y)));
    UnitOne();
    CongSym(Residue(x), x);
    CongSym(Residue(y), y);
    CongMul(x, Residue(x), y, Residue(y));
    CongTrans(t, x * y, Residue(x) * Residue(y));
  }

  /** `ge25519_unpack_negative_vartime`. */
  method UnpackNegative(p: bytes) returns (ok: bool, r: Ge, ghost a: Point)
    requires |p| == 32
    ensures ok ==> Full(r, a) && r.z == ONE && DecodesNegative(p, a)
    ensures ok ==> HasRoot(p)
    ensures PrimeFacts() && HasRoot(p) ==> ok
  {
    hide Val, Poly, Cong, LeVal, Pow, Candidate, Covers, Unit, Eqn, PrimeFacts, Residue;
    var parity := p[31] / 128;
    SignBitOf(p);
    var y := Expand(p);
    var num := Square(y);
    ghost var y2 := Val(num);
    var den := Mul(num, ECD);
    EcdValue();
    ValZero();
    TightCovers(num, ONE);
    num := SubReduce(num, ONE);
    ghost var dy2 := Val(den);
    assert Below(ONE, 2);
    den := Add(den, ONE);
    NumDen(Val(y), y2, dy2, Val(num), Val(den));
    ghost var u, v := Val(num), Val(den);
    var x, t := Root(num, den);
    a := NEUTRAL;
    r := Ge(x, y, ONE, t);
    TightCovers(t, num);
    var root := SubReduce(t, num);
    ghost var x1 := Val(x);
    var zero := IsZero(root);
    FirstTest(x1, v, u, Val(t), Val(root));
    if !zero {
      t := AddReduce(t, num);
      SecondTest(x1, v, u, Val(t));
      zero := IsZero(t);
      if !zero {
        NoRoot(p, Val(y), u, v, x1);
        return false, r, a;
      }
      x := Mul(x, SQRTNEG1);
      SqrtNeg1Value();
      OtherRoot(x1, Val(x), u, v);
    }
    ghost var x2 := Val(x);
    var check := Contract(x);
    LowBit(check);
    if check[0] % 2 == parity {
      TightCovers(ZERO, x);
      x := Neg(x);
    }
    SquareOfSign(x2, Val(x), v);
    CongTrans(Val(x) * Val(x) * v, x2 * x2 * v, u);
    RootOnCurve(Val(x), Val(y), u, v);
    ChosenSign(x2, Val(x), parity);
    t := Mul(x, y);
    r := Ge(x, y, ONE, t);
    a := Point(Residue(Val(x)), Residue(Val(y)));
    ResidueIsMod(Val(x));
    ResidueIsMod(Val(y));
    AffineForm(Val(x), Val(y), Val(t));
    assert OnCurve(a) by {
      CanonicalPoint(Val(x), Val(y));
    }
    ok := true;
  }

  lemma FirstTest(x: int, v: int, u: int, t: int, root: int)
    requires Cong(t, x * x * v) && Cong(root, t - u)
    ensures Cong(root, 0) <==> Cong(x * x * v, u)
  {
    hide Cong;
    var c := x * x * v;
    var j := CongQuotient(t, c);
    var k := CongQuotient(root, t - u);
    CongAlike(root, 0, c, u, j + k);
  }

  lemma SecondTest(x: int, v: int, u: int, t: int)
    requires exists s :: Cong(s, x * x * v) && Cong(t, s + u)
    ensures Cong(t, 0) <==> Cong(x * x * v + u, 0)
  {
    hide Cong;
    var c := x * x * v;
    var s :| Cong(s, c) && Cong(t, s + u);
    var j := CongQuotient(s, c);
    var k := CongQuotient(t, s + u);
    CongAlike(t, 0, c + u, 0, j + k);
  }

  lemma NoRoot(p: bytes, y: int, u: int, v: int, x: int)
    requires |p| == 32 && y == LeVal(p) % TWO255
    requires Cong(u, y * y - 1) && Cong(v, D * (y * y) + 1) && Cong(x, Candidate(u, v))
    requires !Cong(x * x * v, u) && !Cong(x * x * v + u, 0)
    ensures PrimeFacts() ==> !HasRoot(p)
  {
    hide Cong, Candidate, LeVal, Eqn, PrimeFacts;
    if PrimeFacts() && HasRoot(p) {
      var x0 :| Eqn(x0, LeVal(p) % TWO255);
      RootOnCurve(x0, y, u, v);
      CandidateWorks(u, v, x0, x);
    }
  }

  lemma CanonicalPoint(x: int, y: int)
    requires Eqn(x, y)
    ensures OnCurve(Point(Residue(x), Residue(y)))
  {
    hide Cong, Eqn, Residue;
    EqnCong(x, y, Residue(x), Residue(y));
  }

  // ---- encoding and decoding undo each other ----

  lemma EncodingHasRoot(p: bytes, a: Point)
    requires OnCurve(a) && Encodes(p, a)
    ensures HasRoot(p) && LeVal(p) % TWO255 == a.y && LeVal(p) / TWO255 == a.x % 2
  {
    hide Eqn, LeVal;
    SplitSign(LeVal(p), a.y, a.x % 2);
    assert Eqn(a.x, LeVal(p) % TWO255);
  }

  lemma SplitSign(v: int, y: int, sign: int)
    requires v == y + TWO255 * sign && 0 <= y < P
    ensures v % TWO255 == y && v / TWO255 == sign
  {}

  /** On the curve den = d y^2 + 1 never vanishes: y^2 = 1 would force d = -1. */
  lemma DenominatorNonZero(x: int, y: int)
    requires Eqn(x, y)
    ensures !Cong(D * (y * y) + 1, 0)
  {
    hide Cong;
    var n, e := y * y - 1, D * (y * y) + 1;
    CongRefl(n);
    CongRefl(e);
    RootOnCurve(x, y, n, e);
    if Cong(e, 0) {
      CongScale(x * x, e, 0);
      CongSym(x * x * e, n);
      CongTrans(n, x * x * e, 0);
      CongScale(D, n, 0);
      assert D * (y * y - 1) == e - (D + 1);
      CongAdd(e, 0, D * n, 0);
      Constants();
      assert false;
    }
  }

  /** Two curve points with the same y have opposite or equal x. */
  lemma SameY(x: int, z: int, y: int)
    requires PrimeFacts() && Eqn(x, y) && Eqn(z, y)
    ensures Cong(z, x) || Cong(z, -x)
  {
    hide Cong, PrimeFacts, Eqn;
    var n, e := y * y - 1, D * (y * y) + 1;
    CongRefl(n);
    CongRefl(e);
    RootOnCurve(x, y, n, e);
    RootOnCurve(z, y, n, e);
    CongAdd(z * z * e, n, x * x * e, n);
    assert z * z * e - x * x * e == ((z - x) * (z + x)) * e by {
      assert (z - x) * (z + x) == z * z - x * x;
    }
    DenominatorNonZero(x, y);
    ZeroFactor((z - x) * (z + x), e);
    ZeroFactor(z - x, z + x);
    CongZero(z, x);
    CongZero(z, -x);
  }

  /** Decoding the encoding of a point gives the opposite point. */
  lemma DecodeOfEncode(p: bytes, a: Point, c: Point)
    requires PrimeFacts() && OnCurve(a) && Encodes(p, a) && DecodesNegative(p, c)
    ensures c == Minus(a)
  {
    hide PrimeFacts, Eqn, LeVal, Cong;
    EncodingHasRoot(p, a);
    SmallMod(a.y);
    assert c.y == a.y;
    SameY(a.x, c.x, a.y);
    OppositeSign(a.x, c.x);
    ResidueIsMod(-a.x);
  }

  /** The encoding is injective on curve points. */
  lemma EncodingInjective(p: bytes, a: Point, c: Point)
    requires PrimeFacts() && OnCurve(a) && OnCurve(c) && Encodes(p, a) && Encodes(p, c)
    ensures a == c
  {
    hide PrimeFacts, Eqn, LeVal, Cong;
    EncodingDetermines(p, a, c);
    SameY(a.x, c.x, a.y);
    SameSign(a.x, c.x);
  }

  /** At most one point decodes from given bytes. */
  lemma DecodeUnique(p: bytes, a: Point, c: Point)
    requires PrimeFacts() && DecodesNegative(p, a) && DecodesNegative(p, c)
    ensures a == c
  {
    hide PrimeFacts, Eqn, LeVal, Cong;
    SameY(a.x, c.x, a.y);
    SameSign(a.x, c.x);
  }

  lemma SameSign(x: int, z: int)
    requires 0 <= x < P && 0 <= z < P && (Cong(z, x) || Cong(z, -x)) && (x != 0 && z != 0 ==> z % 2 == x % 2)
    ensures z == x
  {
    hide Cong;
    CongMod(z, x);
    CongMod(z, -x);
    SmallMod(x);
    SmallMod(z);
    NegativeMod(x);
    OddDifference(x);
  }

  lemma DecodedHasRoot(p: bytes, a: Point)
    requires DecodesNegative(p, a)
    ensures HasRoot(p)
  {
    hide Eqn, LeVal, Cong;
    var y := LeVal(p) % TWO255;
    CongMod(y, y % P);
    ModTwice(y);
    CongRefl(a.x);
    EqnCong(a.x, a.y, a.x, y);
  }

  lemma ModTwice(y: int)
    ensures y % P % P == y % P
  {}

  lemma OppositeSign(x: int, z: int)
    requires 0 <= x < P && 0 <= z < P && (Cong(z, x) || Cong(z, -x)) && (z != 0 ==> z % 2 == 1 - x % 2)
    ensures z == -x % P
  {
    hide Cong;
    CongMod(z, x);
    CongMod(z, -x);
    SmallMod(x);
    SmallMod(z);
    NegativeMod(x);
    OddDifference(x);
  }

  /** Encoding a decoded point gives back a canonical encoding with the sign bit flipped, or cleared where x is 0. */
  lemma EncodeOfDecode(p: bytes, c: Point, q: bytes)
    requires DecodesNegative(p, c) && LeVal(p) % TWO255 < P && Encodes(q, c)
    ensures q[..31] == p[..31] && q[31] as int == p[31] % 128 + if c.x != 0 && p[31] < 128 then 128 else 0
  {
    hide OnCurve, LeVal;
    SmallMod(LeVal(p) % TWO255);
    ReplaceTop(p, q, c.x % 2);
    SignBitOf(p);
  }

  lemma ReplaceTop(p: bytes, q: bytes, s: int)
    requires |p| == |q| == 32 && 0 <= s <= 1
    requires LeVal(q) == LeVal(p) % TWO255 + TWO255 * s
    ensures q[..31] == p[..31] && q[31] as int == p[31] % 128 + 128 * s
  {
    hide LeVal;
    TopByte(p);
    TopByte(q);
    TopBytes(LeVal(p[..31]), p[31], LeVal(q[..31]), q[31], s);
    LeValInjective(p[..31], q[..31]);
  }

  lemma TopByte(p: bytes)
    requires |p| == 32
    ensures LeVal(p) == LeVal(p[..31]) + TWO248 * p[31] as int && 0 <= LeVal(p[..31]) < TWO248
  {
    hide LeVal, Pow256;
    LastByte(p, 0);
    LeValBound(p[..31]);
    Pow256Of31();
  }

  lemma TopBytes(a: int, b: int, c: int, d: int, s: int)
    requires 0 <= a < TWO248 && 0 <= c < TWO248 && 0 <= b < 256 && 0 <= d < 256 && 0 <= s <= 1
    requires c + TWO248 * d == (a + TWO248 * b) % TWO255 + TWO255 * s
    ensures a == c && d == b % 128 + 128 * s
  {
    if b < 128 {
      Remainder(a + TWO248 * b, 0, a + TWO248 * b);
    } else {
      Remainder(a + TWO248 * b, 1, a + TWO248 * (b - 128));
    }
  }

  /** Unpacking 32 bytes and packing the result, with no assumption on p: Z is 1, so its inverse is exact. */
  method Repack(p: bytes) returns (ok: bool, q: bytes, ghost a: Point)
    requires |p| == 32
    ensures (ok ==> HasRoot(p)) && (PrimeFacts() && HasRoot(p) ==> ok)
    ensures ok ==> |q| == 32 && (LeVal(p) % TWO255 < P ==> q[..31] == p[..31])
    ensures ok ==> DecodesNegative(p, a) && Encodes(q, a)
    ensures ok && LeVal(p) % TWO255 < P ==> q[31] as int == p[31] % 128 + if a.x != 0 && p[31] < 128 then 128 else 0
  {
    hide Val, Partial, Extends, DecodesNegative, LeVal, HasRoot, PrimeFacts;
    var r;
    ok, r, a := UnpackNegative(p);
    q := [];
    if ok {
      ValZero();
      OneInverts();
      q := Pack(r, a);
      if LeVal(p) % TWO255 < P {
        EncodeOfDecode(p, a, q);
      }
    }
  }
}
