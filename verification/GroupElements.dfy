/** Points in limbs and the group operations on them (ed25519-donna-impl-base.h). */
module GroupElements {
  import opened Words
  import opened PrimeField
  import opened Curve25519
  import opened Edwards
  import opened EdwardsFormulas

  datatype Ge = Ge(x: Fe, y: Fe, z: Fe, t: Fe)
  datatype P1p1 = P1p1(x: Fe, y: Fe, z: Fe, t: Fe)
  datatype Niels = Niels(ysubx: Fe, xaddy: Fe, t2d: Fe)
  datatype Pniels = Pniels(ysubx: Fe, xaddy: Fe, z: Fe, t2d: Fe)

  const EC2D := Fe(0x00069b9426b2f159, 0x00035050762add7a, 0x0003cf44c0038052, 0x0006738cc7407977, 0x0002406d9dc56dff)

  const ECD := Fe(0x00034dca135978a3, 0x0001a8283b156ebd, 0x0005e7a26001c029, 0x000739c663a03cbb, 0x00052036cee2b6ff)

  lemma EcdValue()
    ensures Val(ECD) == D
  {
    CurveConstant();
    EcdNumber();
  }

  lemma EcdNumber()
    ensures Val(ECD) == D_VALUE && Val(EC2D) % P == 2 * D_VALUE % P
  {}

  lemma Ec2dValue()
    ensures Cong(Val(EC2D), 2 * D)
  {
    hide Cong;
    CurveConstant();
    EcdNumber();
    CongMod(Val(EC2D), 2 * D_VALUE);
  }

  /** The limbs stand for the curve point `a`; the T coordinate may be stale. */
  ghost predicate Partial(p: Ge, a: Point) {
    Tight(p.x) && Tight(p.y) && Tight(p.z) && OnCurve(a) && Projects(Val(p.x), Val(p.y), Val(p.z), a)
  }

  /** The limbs stand for the curve point `a`, T coordinate included. */
  ghost predicate Full(p: Ge, a: Point) {
    Partial(p, a) && Tight(p.t) && Extends(Val(p.t), Val(p.z), a)
  }

  ghost predicate Completed(r: P1p1, a: Point) {
    Below(r.x, 0x40000000000000) && Below(r.y, 0x40000000000000) && Below(r.z, 0x40000000000000)
    && Below(r.t, 0x40000000000000) && OnCurve(a) && Completes(Val(r.x), Val(r.y), Val(r.z), Val(r.t), a)
  }

  ghost predicate Cached(q: Pniels, b: Point) {
    Below(q.ysubx, 0x40000000000000) && Below(q.xaddy, 0x40000000000000) && Tight(q.z) && Tight(q.t2d)
    && OnCurve(b) && Prepared(Val(q.ysubx), Val(q.xaddy), Val(q.z), Val(q.t2d), b)
  }

  /** Prepared with Z = 1, as the constant tables hold it. */
  ghost predicate CachedAffine(q: Niels, b: Point) {
    Tight(q.ysubx) && Tight(q.xaddy) && Tight(q.t2d)
    && OnCurve(b) && Prepared(Val(q.ysubx), Val(q.xaddy), 1, Val(q.t2d), b)
  }

  /** Neither denominator of the addition law vanishes. */
  ghost predicate Addable(a: Point, b: Point) {
    Unit(1 + Cross(a, b)) && Unit(1 - Cross(a, b))
  }

  lemma TightCovers(a: Fe, b: Fe)
    ensures Tight(b) ==> Covers(a, TWO_P, b) && Covers(a, FOUR_P, b)
    ensures Below(b, 0x1fffffffffffb0) ==> Covers(a, FOUR_P, b)
  {}

  lemma MulCong(r: int, u: int, u': int, v: int, v': int)
    requires Cong(r, u * v) && Cong(u, u') && Cong(v, v')
    ensures Cong(r, u' * v')
  {
    hide Cong;
    CongMul(u, u', v, v');
    CongTrans(r, u * v, u' * v');
  }

  lemma CompletesCong(x: int, y: int, z: int, t: int, x': int, y': int, z': int, t': int, a: Point)
    requires Completes(x, y, z, t, a) && Cong(x', x) && Cong(y', y) && Cong(z', z) && Cong(t', t)
    ensures Completes(x', y', z', t', a)
  {
    hide Cong, Unit, Completes;
    CompletesIs(x, y, z, t, a);
    CompletesIs(x', y', z', t', a);
    CongSym(z', z);
    CongSym(t', t);
    UnitCong(z, z');
    UnitCong(t, t');
    CongScale(a.x, z, z');
    CongScale(a.y, t, t');
    CongTrans(x', x, a.x * z);
    CongTrans(x', a.x * z, a.x * z');
    CongTrans(y', y, a.y * t);
    CongTrans(y', a.y * t, a.y * t');
  }

  method P1p1ToPartial(p: P1p1, old_t: Fe, ghost a: Point) returns (r: Ge)
    requires Completed(p, a)
    ensures Partial(r, a) && r.t == old_t
  {
    hide Cong, Val, Poly, Unit, OnCurve;
    var x := Mul(p.x, p.t);
    var y := Mul(p.y, p.z);
    var z := Mul(p.z, p.t);
    r := Ge(x, y, z, old_t);
    ToExtended(Val(p.x), Val(p.y), Val(p.z), Val(p.t), Val(x), Val(y), Val(z), a);
  }

  method P1p1ToFull(p: P1p1, ghost a: Point) returns (r: Ge)
    requires Completed(p, a)
    ensures Full(r, a)
  {
    hide Cong, Val, Poly, Unit, OnCurve;
    var x := Mul(p.x, p.t);
    var y := Mul(p.y, p.z);
    var z := Mul(p.z, p.t);
    var t := Mul(p.x, p.y);
    r := Ge(x, y, z, t);
    ToExtended(Val(p.x), Val(p.y), Val(p.z), Val(p.t), Val(x), Val(y), Val(z), a);
    ToExtendedT(Val(p.x), Val(p.y), Val(p.z), Val(p.t), Val(z), Val(t), a);
  }

  method FullToPniels(r: Ge, ghost a: Point) returns (p: Pniels)
    requires Full(r, a)
    ensures Cached(p, a)
  {
    hide Cong, Val, Poly, Unit, OnCurve, Covers;
    TightCovers(r.y, r.x);
    var ysubx := Sub(r.y, r.x);
    var xaddy := Add(r.y, r.x);
    var t2d := Mul(r.t, EC2D);
    p := Pniels(ysubx, xaddy, r.z, t2d);
    Ec2dValue();
    CongRefl(Val(r.t));
    CongRefl(Val(xaddy));
    MulCong(Val(t2d), Val(r.t), Val(r.t), Val(EC2D), 2 * D);
    Prepare(Val(r.x), Val(r.y), Val(r.z), Val(r.t), Val(ysubx), Val(xaddy), Val(t2d), a);
  }

  lemma AddValues(px: int, py: int, pz: int, pt: int, qx: int, qy: int, qz: int, qt: int, e2d: int,
                  va: int, vb: int, t: int, u: int, fa: int, fb: int, vc: int, c: int, vd: int, d: int,
                  rx: int, ry: int, rz: int, rt: int, a: Point, b: Point)
    requires Projects(px, py, pz, a) && Extends(pt, pz, a) && Projects(qx, qy, qz, b) && Extends(qt, qz, b)
    requires Addable(a, b) && Cong(e2d, 2 * D)
    requires Cong(va, py - px) && Cong(vb, py + px) && Cong(t, qy - qx) && Cong(u, qy + qx)
    requires Cong(fa, va * t) && Cong(fb, vb * u) && Cong(vc, pt * qt) && Cong(c, vc * e2d)
    requires Cong(vd, pz * qz) && d == vd + vd
    requires Cong(rx, fb - fa) && ry == fb + fa && rz == d + c && Cong(rt, d - c)
    ensures Completes(rx, ry, rz, rt, Plus(a, b))
  {
    hide Cong, Unit, Cross, Plus;
    var t2d := qt * (2 * D);
    MulCong(c, vc, pt * qt, e2d, 2 * D);
    Reassociate(pt, qt, 2 * D);
    CongRefl(t2d);
    Prepare(qx, qy, qz, qt, t, u, t2d, b);
    CongRefl(t);
    CongRefl(u);
    MulCong(fa, va, py - px, t, t);
    MulCong(fb, vb, py + px, u, u);
    CongAdd(vd, pz * qz, vd, pz * qz);
    AddCore(px, py, pz, pt, t, u, qz, t2d, fa, fb, c, d, a, b);
    CongRefl(ry);
    CongRefl(rz);
    CompletesCong(fb - fa, fb + fa, d + c, d - c, rx, ry, rz, rt, Plus(a, b));
  }

  method AddP1p1(p: Ge, q: Ge, ghost a: Point, ghost b: Point) returns (r: P1p1)
    requires Full(p, a) && Full(q, b) && Addable(a, b)
    ensures Completed(r, Plus(a, b))
  {
    hide Cong, Val, Poly, Unit, OnCurve, Covers, Cross, Plus, Reduced, Addable;
    TightCovers(p.y, p.x);
    TightCovers(q.y, q.x);
    var fa := Sub(p.y, p.x);
    var fb := Add(p.y, p.x);
    var t := Sub(q.y, q.x);
    var u := Add(q.y, q.x);
    CongRefl(Val(fb));
    CongRefl(Val(u));
    ghost var va, vb := Val(fa), Val(fb);
    fa := Mul(fa, t);
    fb := Mul(fb, u);
    var c := Mul(p.t, q.t);
    ghost var vc := Val(c);
    c := Mul(c, EC2D);
    var d := Mul(p.z, q.z);
    ghost var vd := Val(d);
    d := Add(d, d);
    TightCovers(fb, fa);
    TightCovers(d, c);
    var rx := Sub(fb, fa);
    var ry := Add(fb, fa);
    var rz := Add(d, c);
    var rt := SubAfterBasic(d, c);
    r := P1p1(rx, ry, rz, rt);
    Ec2dValue();
    AddValues(Val(p.x), Val(p.y), Val(p.z), Val(p.t), Val(q.x), Val(q.y), Val(q.z), Val(q.t), Val(EC2D),
              va, vb, Val(t), Val(u), Val(fa), Val(fb), vc, Val(c), vd, Val(d),
              Val(rx), Val(ry), Val(rz), Val(rt), a, b);
    SumOnCurve(a, b);
  }

  lemma SumOnCurve(a: Point, b: Point)
    requires OnCurve(a) && OnCurve(b) && Addable(a, b)
    ensures OnCurve(Plus(a, b))
  {
    PlusOnCurve(a, b);
  }

  lemma DoubleValues(px: int, py: int, pz: int, fa: int, fb: int, vc: int, c: int, qs: int,
                     rx: int, ry: int, rz: int, rt: int, a: Point)
    requires Projects(px, py, pz, a) && Eqn(a.x, a.y) && Addable(a, a)
    requires Cong(fa, px * px) && Cong(fb, py * py) && Cong(vc, pz * pz) && Cong(c, vc + vc)
    requires Cong(qs, (px + py) * (px + py))
    requires ry == fb + fa && Cong(rz, fb - fa) && Cong(rx, qs - ry) && Cong(rt, c - rz)
    ensures Completes(rx, ry, rz, rt, Plus(a, a))
  {
    hide Cong, Unit, Cross, Plus;
    CongAdd(vc, pz * pz, vc, pz * pz);
    CongTrans(c, vc + vc, 2 * (pz * pz));
    DoubleCore(px, py, pz, fa, fb, c, qs, a);
    CongRefl(c);
    CongRefl(ry);
    CongAdd(c, c, rz, fb - fa);
    CongTrans(rt, c - rz, c - (fb - fa));
    CompletesCong(qs - (fb + fa), fb + fa, fb - fa, c - (fb - fa), rx, ry, rz, rt, Plus(a, a));
  }

  method DoubleP1p1(p: Ge, ghost a: Point) returns (r: P1p1)
    requires Partial(p, a) && Addable(a, a)
    ensures Completed(r, Plus(a, a))
  {
    hide Cong, Val, Poly, Unit, Covers, Cross, Plus, Reduced, Addable, OnCurve;
    var fa := Square(p.x);
    var fb := Square(p.y);
    var c := Square(p.z);
    ghost var vc := Val(c);
    c := AddReduce(c, c);
    var rx := Add(p.x, p.y);
    rx := Square(rx);
    ghost var qs := Val(rx);
    var ry := Add(fb, fa);
    TightCovers(fb, fa);
    var rz := Sub(fb, fa);
    TightCovers(rx, ry);
    rx := SubAfterBasic(rx, ry);
    TightCovers(c, rz);
    var rt := SubAfterBasic(c, rz);
    r := P1p1(rx, ry, rz, rt);
    assert Eqn(a.x, a.y) by {
      CurveEqn(a);
    }
    DoubleValues(Val(p.x), Val(p.y), Val(p.z), Val(fa), Val(fb), vc, Val(c), qs,
                 Val(rx), Val(ry), Val(rz), Val(rt), a);
    SumOnCurve(a, a);
  }

  lemma CurveEqn(a: Point)
    requires OnCurve(a)
    ensures Eqn(a.x, a.y)
  {}

  ghost function Signed(b: Point, signbit: u8): Point {
    if signbit == 0 then b else Minus(b)
  }

  /** Adding a prepared point: `m`, `p` and `t2d` already carry the sign. */
  lemma MixedValues(px: int, py: int, pz: int, pt: int, m: int, p: int, z2: int, t2d: int,
                    va: int, vb: int, fa: int, fb: int, c: int, e: int,
                    rx: int, ry: int, rz: int, rt: int, a: Point, b: Point)
    requires Projects(px, py, pz, a) && Extends(pt, pz, a) && Prepared(m, p, z2, t2d, b) && Addable(a, b)
    requires Cong(va, py - px) && Cong(vb, py + px) && Cong(fa, va * m) && Cong(fb, vb * p)
    requires Cong(c, pt * t2d) && Cong(e, 2 * (pz * z2))
    requires Cong(rx, fb - fa) && Cong(ry, fb + fa) && Cong(rz, e + c) && Cong(rt, e - c)
    ensures Completes(rx, ry, rz, rt, Plus(a, b))
  {
    hide Cong, Unit, Cross, Plus;
    CongRefl(m);
    CongRefl(p);
    MulCong(fa, va, py - px, m, m);
    MulCong(fb, vb, py + px, p, p);
    AddCore(px, py, pz, pt, m, p, z2, t2d, fa, fb, c, e, a, b);
    CompletesCong(fb - fa, fb + fa, e + c, e - c, rx, ry, rz, rt, Plus(a, b));
  }

  lemma NegatedProduct(c: int, t: int, u: int)
    requires Cong(c, t * u)
    ensures Cong(-c, t * -u)
  {
    hide Cong;
    CongNeg(c, t * u);
    assert -(t * u) == t * -u;
  }

  lemma Doubled(z: int, r: int)
    requires Cong(r, z + z)
    ensures Cong(r, 2 * (z * 1))
  {}

  method Nielsadd2P1p1(p: Ge, q: Niels, signbit: u8, ghost a: Point, ghost b: Point) returns (r: P1p1)
    requires signbit <= 1 && Full(p, a) && CachedAffine(q, b) && Addable(a, Signed(b, signbit))
    ensures Completed(r, Plus(a, Signed(b, signbit)))
  {
    hide Cong, Val, Poly, Unit, OnCurve, Covers, Cross, Plus, Minus, Reduced, Addable;
    TightCovers(p.y, p.x);
    var fa := Sub(p.y, p.x);
    var fb := Add(p.y, p.x);
    CongRefl(Val(fb));
    ghost var va, vb := Val(fa), Val(fb);
    fa := Mul(fa, if signbit == 0 then q.ysubx else q.xaddy);
    var rx := Mul(fb, if signbit == 0 then q.xaddy else q.ysubx);
    fb := rx;
    var ry := Add(rx, fa);
    TightCovers(rx, fa);
    rx := Sub(rx, fa);
    var c := Mul(p.t, q.t2d);
    var rt := AddReduce(p.z, p.z);
    ghost var e := Val(rt);
    var rz := rt;
    TightCovers(rt, c);
    if signbit == 0 {
      rz := Add(rz, c);
      rt := Sub(rt, c);
    } else {
      rt := Add(rt, c);
      rz := Sub(rz, c);
    }
    r := P1p1(rx, ry, rz, rt);
    CongRefl(Val(ry));
    CongRefl(Val(rz));
    CongRefl(Val(rt));
    Doubled(Val(p.z), e);
    if signbit == 0 {
      MixedValues(Val(p.x), Val(p.y), Val(p.z), Val(p.t), Val(q.ysubx), Val(q.xaddy), 1, Val(q.t2d),
                  va, vb, Val(fa), Val(fb), Val(c), e, Val(rx), Val(ry), Val(rz), Val(rt), a, b);
      SumOnCurve(a, b);
    } else {
      PreparedOpposite(Val(q.ysubx), Val(q.xaddy), 1, Val(q.t2d), b);
      NegatedProduct(Val(c), Val(p.t), Val(q.t2d));
      MixedValues(Val(p.x), Val(p.y), Val(p.z), Val(p.t), Val(q.xaddy), Val(q.ysubx), 1, -Val(q.t2d),
                  va, vb, Val(fa), Val(fb), -Val(c), e, Val(rx), Val(ry), Val(rz), Val(rt), a, Minus(b));
      MinusOnCurve(b);
      SumOnCurve(a, Minus(b));
    }
  }

  lemma DoubledProduct(v: int, z1: int, z2: int, r: int)
    requires Cong(v, z1 * z2) && Cong(r, v + v)
    ensures Cong(r, 2 * (z1 * z2))
  {
    hide Cong;
    CongAdd(v, z1 * z2, v, z1 * z2);
    CongTrans(r, v + v, 2 * (z1 * z2));
  }

  method PnielsaddP1p1(p: Ge, q: Pniels, signbit: u8, ghost a: Point, ghost b: Point) returns (r: P1p1)
    requires signbit <= 1 && Full(p, a) && Cached(q, b) && Addable(a, Signed(b, signbit))
    ensures Completed(r, Plus(a, Signed(b, signbit)))
  {
    hide Cong, Val, Poly, Unit, OnCurve, Covers, Cross, Plus, Minus, Reduced, Addable;
    TightCovers(p.y, p.x);
    var fa := Sub(p.y, p.x);
    var fb := Add(p.y, p.x);
    CongRefl(Val(fb));
    ghost var va, vb := Val(fa), Val(fb);
    fa := Mul(fa, if signbit == 0 then q.ysubx else q.xaddy);
    var rx := Mul(fb, if signbit == 0 then q.xaddy else q.ysubx);
    fb := rx;
    var ry := Add(rx, fa);
    TightCovers(rx, fa);
    rx := Sub(rx, fa);
    var c := Mul(p.t, q.t2d);
    var rt := Mul(p.z, q.z);
    ghost var zz := Val(rt);
    rt := AddReduce(rt, rt);
    ghost var e := Val(rt);
    var rz := rt;
    TightCovers(rt, c);
    if signbit == 0 {
      rz := Add(rz, c);
      rt := Sub(rt, c);
    } else {
      rt := Add(rt, c);
      rz := Sub(rz, c);
    }
    r := P1p1(rx, ry, rz, rt);
    CongRefl(Val(ry));
    CongRefl(Val(rz));
    CongRefl(Val(rt));
    DoubledProduct(zz, Val(p.z), Val(q.z), e);
    if signbit == 0 {
      MixedValues(Val(p.x), Val(p.y), Val(p.z), Val(p.t), Val(q.ysubx), Val(q.xaddy), Val(q.z), Val(q.t2d),
                  va, vb, Val(fa), Val(fb), Val(c), e, Val(rx), Val(ry), Val(rz), Val(rt), a, b);
      SumOnCurve(a, b);
    } else {
      PreparedOpposite(Val(q.ysubx), Val(q.xaddy), Val(q.z), Val(q.t2d), b);
      NegatedProduct(Val(c), Val(p.t), Val(q.t2d));
      MixedValues(Val(p.x), Val(p.y), Val(p.z), Val(p.t), Val(q.xaddy), Val(q.ysubx), Val(q.z), -Val(q.t2d),
                  va, vb, Val(fa), Val(fb), -Val(c), e, Val(rx), Val(ry), Val(rz), Val(rt), a, Minus(b));
      MinusOnCurve(b);
      SumOnCurve(a, Minus(b));
    }
  }

  method DoublePartial(p: Ge, ghost a: Point) returns (r: Ge)
    requires Partial(p, a) && Addable(a, a)
    ensures Partial(r, Plus(a, a))
  {
    hide *;
    var t := DoubleP1p1(p, a);
    r := P1p1ToPartial(t, p.t, Plus(a, a));
  }

  method Double(p: Ge, ghost a: Point) returns (r: Ge)
    requires Partial(p, a) && Addable(a, a)
    ensures Full(r, Plus(a, a))
  {
    hide *;
    var t := DoubleP1p1(p, a);
    r := P1p1ToFull(t, Plus(a, a));
  }

  method GeAdd(p: Ge, q: Ge, ghost a: Point, ghost b: Point) returns (r: Ge)
    requires Full(p, a) && Full(q, b) && Addable(a, b)
    ensures Full(r, Plus(a, b))
  {
    hide *;
    var t := AddP1p1(p, q, a, b);
    r := P1p1ToFull(t, Plus(a, b));
  }

  /** `ge25519_nielsadd2`: adds a table entry to `r` in place. */
  method Nielsadd2(p: Ge, q: Niels, ghost a: Point, ghost b: Point) returns (r: Ge)
    requires Full(p, a) && CachedAffine(q, b) && Addable(a, b)
    ensures Full(r, Plus(a, b))
  {
    hide Cong, Val, Poly, Unit, OnCurve, Covers, Cross, Plus, Minus, Reduced, Addable;
    TightCovers(p.y, p.x);
    var fa := Sub(p.y, p.x);
    var fb := Add(p.y, p.x);
    CongRefl(Val(fb));
    ghost var va, vb := Val(fa), Val(fb);
    fa := Mul(fa, q.ysubx);
    var e := Mul(fb, q.xaddy);
    fb := e;
    var h := Add(e, fa);
    TightCovers(e, fa);
    e := Sub(e, fa);
    var c := Mul(p.t, q.t2d);
    var f := Add(p.z, p.z);
    ghost var ve := Val(f);
    CongRefl(ve);
    Doubled(Val(p.z), ve);
    TightCovers(f, c);
    var g := Add(f, c);
    f := SubAfterBasic(f, c);
    CongRefl(Val(h));
    CongRefl(Val(g));
    MixedValues(Val(p.x), Val(p.y), Val(p.z), Val(p.t), Val(q.ysubx), Val(q.xaddy), 1, Val(q.t2d),
                va, vb, Val(fa), Val(fb), Val(c), ve, Val(e), Val(h), Val(g), Val(f), a, b);
    SumOnCurve(a, b);
    r := P1p1ToFull(P1p1(e, h, g, f), Plus(a, b));
  }

  /** `ge25519_pnielsadd`: the sum of a full and a cached point, as a cached point. */
  method Pnielsadd(p: Ge, q: Pniels, ghost a: Point, ghost b: Point) returns (r: Pniels)
    requires Full(p, a) && Cached(q, b) && Addable(a, b)
    ensures Cached(r, Plus(a, b))
  {
    hide Cong, Val, Poly, Unit, OnCurve, Covers, Cross, Plus, Minus, Reduced, Addable;
    TightCovers(p.y, p.x);
    var fa := Sub(p.y, p.x);
    var fb := Add(p.y, p.x);
    CongRefl(Val(fb));
    ghost var va, vb := Val(fa), Val(fb);
    fa := Mul(fa, q.ysubx);
    var x := Mul(fb, q.xaddy);
    fb := x;
    var y := Add(x, fa);
    TightCovers(x, fa);
    x := Sub(x, fa);
    var c := Mul(p.t, q.t2d);
    var t := Mul(p.z, q.z);
    ghost var zz := Val(t);
    t := Add(t, t);
    ghost var e := Val(t);
    CongRefl(e);
    DoubledProduct(zz, Val(p.z), Val(q.z), e);
    TightCovers(t, c);
    var z := Add(t, c);
    t := SubAfterBasic(t, c);
    CongRefl(Val(y));
    CongRefl(Val(z));
    MixedValues(Val(p.x), Val(p.y), Val(p.z), Val(p.t), Val(q.ysubx), Val(q.xaddy), Val(q.z), Val(q.t2d),
                va, vb, Val(fa), Val(fb), Val(c), e, Val(x), Val(y), Val(z), Val(t), a, b);
    SumOnCurve(a, b);
    var s := P1p1ToFull(P1p1(x, y, z, t), Plus(a, b));
    r := FullToPniels(s, Plus(a, b));
  }
}
