/** The projective addition and doubling formulas, as statements about integers modulo p. */
module EdwardsFormulas {
  import opened PrimeField
  import opened Edwards

  /** (X : Y : Z) stands for the affine point `a`. */
  ghost predicate Projects(x: int, y: int, z: int, a: Point) {
    Unit(z) && Cong(x, Product(a.x, z)) && Cong(y, Product(a.y, z))
  }

  lemma ProjectsIs(x: int, y: int, z: int, a: Point)
    ensures Projects(x, y, z, a) <==> Unit(z) && Cong(x, a.x * z) && Cong(y, a.y * z)
  {
    hide Cong, Product, Unit;
    ProductIs(a.x, z);
    ProductIs(a.y, z);
  }

  /** The extra coordinate of extended form: T = x y Z, that is, T Z = X Y. */
  ghost predicate Extends(t: int, z: int, a: Point) {
    Cong(t, Product(Product(a.x, a.y), z))
  }

  lemma ExtendsIs(t: int, z: int, a: Point)
    ensures Extends(t, z, a) <==> Cong(t, (a.x * a.y) * z)
  {
    hide Cong, Product;
    ProductIs(a.x, a.y);
    ProductIs(a.x * a.y, z);
  }

  /** The form prepared for addition: (y - x) Z, (y + x) Z, Z and 2 d x y Z. */
  ghost predicate Prepared(m: int, p: int, z: int, t2d: int, b: Point) {
    Unit(z) && Cong(m, Product(b.y - b.x, z)) && Cong(p, Product(b.y + b.x, z))
    && Cong(t2d, Product(Product(2 * D, Product(b.x, b.y)), z))
  }

  lemma PreparedIs(m: int, p: int, z: int, t2d: int, b: Point)
    ensures Prepared(m, p, z, t2d, b)
       <==> Unit(z) && Cong(m, (b.y - b.x) * z) && Cong(p, (b.y + b.x) * z) && Cong(t2d, 2 * D * (b.x * b.y) * z)
  {
    hide Cong, Product, Unit;
    ProductIs(b.y - b.x, z);
    ProductIs(b.y + b.x, z);
    ProductIs(b.x, b.y);
    ProductIs(2 * D, b.x * b.y);
    ProductIs(2 * D * (b.x * b.y), z);
  }

  /** The completed form ((X : Z), (Y : T)), with x = X / Z and y = Y / T. */
  ghost predicate Completes(x: int, y: int, z: int, t: int, a: Point) {
    Unit(z) && Unit(t) && Cong(x, Product(a.x, z)) && Cong(y, Product(a.y, t))
  }

  lemma CompletesIs(x: int, y: int, z: int, t: int, a: Point)
    ensures Completes(x, y, z, t, a) <==> Unit(z) && Unit(t) && Cong(x, a.x * z) && Cong(y, a.y * t)
  {
    hide Cong, Product, Unit;
    ProductIs(a.x, z);
    ProductIs(a.y, t);
  }

  lemma UnitTwo()
    ensures Unit(2)
  {
    hide Cong;
    CongByMultiple(2 * ((P + 1) / 2), 1, 1);
    UnitBy(2, (P + 1) / 2);
  }

  lemma ProductAt(a: int, u: int, z1: int, b: int, v: int, z2: int, r: int)
    requires Cong(a, u * z1) && Cong(b, v * z2) && Cong(r, a * b)
    ensures Cong(r, (u * v) * (z1 * z2))
  {
    hide Cong;
    CongMul(a, u * z1, b, v * z2);
    SwapFactors(u, z1, v, z2);
    CongTrans(r, a * b, (u * v) * (z1 * z2));
  }

  lemma SumAt(x: int, y: int, a: int, b: int, z: int)
    requires Cong(x, a * z) && Cong(y, b * z)
    ensures Cong(y - x, (b - a) * z) && Cong(y + x, (b + a) * z)
  {
    hide Cong;
    CongAdd(y, b * z, x, a * z);
    assert b * z - a * z == (b - a) * z;
    assert b * z + a * z == (b + a) * z;
  }

  lemma CrossTerms(a: Point, b: Point)
    ensures (a.y + a.x) * (b.y + b.x) - (a.y - a.x) * (b.y - b.x) == SumX(a, b) * 2
    ensures (a.y + a.x) * (b.y + b.x) + (a.y - a.x) * (b.y - b.x) == SumY(a, b) * 2
    ensures (a.x * a.y) * (2 * D * (b.x * b.y)) == Cross(a, b) * 2
  {
    hide Cross, SumX, SumY;
    LawIs(a, b);
    FourTerms(a.y, a.x, b.y, b.x);
    FourTerms(a.y, -a.x, b.y, -b.x);
    var d := D;
    CrossTermsWith(d, a.x * a.y, b.x * b.y);
  }

  lemma CrossTermsWith(d: int, p: int, q: int)
    ensures p * (2 * d * q) == d * (p * q) * 2
  {}

  /** The unified addition: for all points, B - A, B + A, E + C and E - C complete the sum. */
  lemma AddCore(x1: int, y1: int, z1: int, t1: int, m: int, p: int, z2: int, t2d: int,
                ra: int, rb: int, rc: int, re: int, a: Point, b: Point)
    requires Projects(x1, y1, z1, a) && Extends(t1, z1, a) && Prepared(m, p, z2, t2d, b)
    requires Cong(ra, (y1 - x1) * m) && Cong(rb, (y1 + x1) * p) && Cong(rc, t1 * t2d) && Cong(re, 2 * (z1 * z2))
    requires Unit(1 + Cross(a, b)) && Unit(1 - Cross(a, b))
    ensures Completes(rb - ra, rb + ra, re + rc, re - rc, Plus(a, b))
  {
    hide Cong, Unit, Cross, SumX, SumY, Plus, Projects, Extends, Prepared, Completes;
    ProjectsIs(x1, y1, z1, a);
    ExtendsIs(t1, z1, a);
    PreparedIs(m, p, z2, t2d, b);
    var v := z1 * z2;
    SumAt(x1, y1, a.x, a.y, z1);
    ProductAt(y1 - x1, a.y - a.x, z1, m, b.y - b.x, z2, ra);
    ProductAt(y1 + x1, a.y + a.x, z1, p, b.y + b.x, z2, rb);
    SumAt(ra, rb, (a.y - a.x) * (b.y - b.x), (a.y + a.x) * (b.y + b.x), v);
    ProductAt(t1, a.x * a.y, z1, t2d, 2 * D * (b.x * b.y), z2, rc);
    CrossTerms(a, b);
    var w := 2 * v;
    Reassociate(SumX(a, b), 2, v);
    Reassociate(SumY(a, b), 2, v);
    Reassociate(Cross(a, b), 2, v);
    CongAdd(re, w, rc, Cross(a, b) * w);
    assert w + Cross(a, b) * w == (1 + Cross(a, b)) * w && w - Cross(a, b) * w == (1 - Cross(a, b)) * w;
    assert Unit(w) by {
      UnitTwo();
      UnitMul(z1, z2);
      UnitMul(2, v);
    }
    CompleteScaled(rb - ra, rb + ra, re + rc, re - rc, w, a, b);
  }

  /** Numerators and denominators of the addition law, all scaled by a unit `w`, complete the sum. */
  lemma CompleteScaled(x: int, y: int, z: int, t: int, w: int, a: Point, b: Point)
    requires Unit(w) && Unit(1 + Cross(a, b)) && Unit(1 - Cross(a, b))
    requires Cong(x, SumX(a, b) * w) && Cong(y, SumY(a, b) * w)
    requires Cong(z, (1 + Cross(a, b)) * w) && Cong(t, (1 - Cross(a, b)) * w)
    ensures Completes(x, y, z, t, Plus(a, b))
  {
    hide Cong, Unit, Cross, SumX, SumY, Plus, Completes;
    var k, s := Cross(a, b), Plus(a, b);
    CompletesIs(x, y, z, t, s);
    PlusEquations(a, b);
    ThroughRatio(x, SumX(a, b), s.x, 1 + k, w, z);
    ThroughRatio(y, SumY(a, b), s.y, 1 - k, w, t);
    UnitMul(1 + k, w);
    UnitMul(1 - k, w);
    CongSym(z, (1 + k) * w);
    CongSym(t, (1 - k) * w);
    UnitCong((1 + k) * w, z);
    UnitCong((1 - k) * w, t);
  }

  /** From e = n w, n = s u and den = u w follows e = s den. */
  lemma ThroughRatio(e: int, n: int, s: int, u: int, w: int, den: int)
    requires Cong(e, n * w) && Cong(s * u, n) && Cong(den, u * w)
    ensures Cong(e, s * den)
  {
    hide Cong;
    CongSym(s * u, n);
    CongRefl(w);
    CongMul(n, s * u, w, w);
    Reassociate(s, u, w);
    CongTrans(e, n * w, s * (u * w));
    CongScale(s, den, u * w);
    CongSym(s * den, s * (u * w));
    CongTrans(e, s * (u * w), s * den);
  }

  /** Doubling needs neither T nor d: the curve equation supplies 1 + d x^2 y^2. */
  lemma DoubleCore(x: int, y: int, z: int, qa: int, qb: int, qc: int, qs: int, a: Point)
    requires Projects(x, y, z, a) && Eqn(a.x, a.y)
    requires Cong(qa, x * x) && Cong(qb, y * y) && Cong(qc, 2 * (z * z)) && Cong(qs, (x + y) * (x + y))
    requires Unit(1 + Cross(a, a)) && Unit(1 - Cross(a, a))
    ensures Completes(qs - (qb + qa), qb + qa, qb - qa, qc - (qb - qa), Plus(a, a))
  {
    hide Cong, Unit, Plus, Cross, SumX, SumY, Eqn, Projects, Completes;
    ProjectsIs(x, y, z, a);
    LawIs(a, a);
    EqnIs(a.x, a.y);
    var v := z * z;
    ProductAt(x, a.x, z, x, a.x, z, qa);
    ProductAt(y, a.y, z, y, a.y, z, qb);
    SumAt(qa, qb, a.x * a.x, a.y * a.y, v);
    SumAt(x, y, a.x, a.y, z);
    assert y + x == x + y;
    ProductAt(x + y, a.y + a.x, z, x + y, a.y + a.x, z, qs);
    SumAt(qb + qa, qs, a.y * a.y + a.x * a.x, (a.y + a.x) * (a.y + a.x), v);
    assert (a.y + a.x) * (a.y + a.x) - (a.y * a.y + a.x * a.x) == SumX(a, a) by {
      Binomial(a.y, a.x);
    }
    CongRefl(v);
    CongMul(a.y * a.y - a.x * a.x, 1 + Cross(a, a), v, v);
    CongTrans(qb - qa, (a.y * a.y - a.x * a.x) * v, (1 + Cross(a, a)) * v);
    CongAdd(qc, 2 * v, qb - qa, (1 + Cross(a, a)) * v);
    assert 2 * v - (1 + Cross(a, a)) * v == (1 - Cross(a, a)) * v;
    UnitMul(z, z);
    CompleteScaled(qs - (qb + qa), qb + qa, qb - qa, qc - (qb - qa), v, a, a);
  }

  /** Leaving completed form. */
  lemma ToExtended(x: int, y: int, z: int, t: int, rx: int, ry: int, rz: int, a: Point)
    requires Completes(x, y, z, t, a)
    requires Cong(rx, x * t) && Cong(ry, y * z) && Cong(rz, z * t)
    ensures Projects(rx, ry, rz, a)
  {
    hide Cong, Unit, Completes, Projects;
    CompletesIs(x, y, z, t, a);
    ProjectsIs(rx, ry, rz, a);
    UnitMul(z, t);
    CongSym(rz, z * t);
    UnitCong(z * t, rz);
    Rescale(rx, x, t, a.x, z, rz);
    assert t * z == z * t;
    Rescale(ry, y, z, a.y, t, rz);
  }

  lemma Rescale(r: int, x: int, t: int, c: int, z: int, rz: int)
    requires Cong(r, x * t) && Cong(x, c * z) && Cong(rz, z * t)
    ensures Cong(r, c * rz)
  {
    hide Cong;
    CongRefl(t);
    CongMul(x, c * z, t, t);
    Reassociate(c, z, t);
    CongTrans(r, x * t, c * (z * t));
    CongScale(c, rz, z * t);
    CongSym(c * rz, c * (z * t));
    CongTrans(r, c * (z * t), c * rz);
  }

  lemma ToExtendedT(x: int, y: int, z: int, t: int, rz: int, rt: int, a: Point)
    requires Completes(x, y, z, t, a)
    requires Cong(rz, z * t) && Cong(rt, x * y)
    ensures Extends(rt, rz, a)
  {
    hide Cong, Unit, Completes, Extends;
    CompletesIs(x, y, z, t, a);
    ExtendsIs(rt, rz, a);
    ProductAt(x, a.x, z, y, a.y, t, rt);
    CongScale(a.x * a.y, rz, z * t);
    CongSym((a.x * a.y) * rz, (a.x * a.y) * (z * t));
    CongTrans(rt, (a.x * a.y) * (z * t), (a.x * a.y) * rz);
  }

  /** Preparing an extended point. */
  lemma Prepare(x: int, y: int, z: int, t: int, m: int, p: int, t2d: int, a: Point)
    requires Projects(x, y, z, a) && Extends(t, z, a)
    requires Cong(m, y - x) && Cong(p, y + x) && Cong(t2d, t * (2 * D))
    ensures Prepared(m, p, z, t2d, a)
  {
    hide Cong, Unit, Projects, Extends, Prepared;
    ProjectsIs(x, y, z, a);
    ExtendsIs(t, z, a);
    PreparedIs(m, p, z, t2d, a);
    SumAt(x, y, a.x, a.y, z);
    CongTrans(m, y - x, (a.y - a.x) * z);
    CongTrans(p, y + x, (a.y + a.x) * z);
    CongRefl(2 * D);
    CongMul(t, (a.x * a.y) * z, 2 * D, 2 * D);
    var d := 2 * D;
    assert (a.x * a.y) * z * d == d * (a.x * a.y) * z;
    CongTrans(t2d, t * (2 * D), 2 * D * (a.x * a.y) * z);
  }

  /** Swapping y - x with y + x and negating 2 d x y prepares the opposite point. */
  lemma PreparedOpposite(m: int, p: int, z: int, t2d: int, b: Point)
    requires Prepared(m, p, z, t2d, b)
    ensures Prepared(p, m, z, -t2d, Minus(b))
  {
    hide Cong, Unit, Minus, Prepared;
    PreparedIs(m, p, z, t2d, b);
    PreparedIs(p, m, z, -t2d, Minus(b));
    var n := Minus(b);
    MinusX(b);
    CongRefl(b.y);
    CongAdd(b.y, b.y, n.x, -b.x);
    CongRefl(z);
    CongMul(n.y - n.x, b.y + b.x, z, z);
    CongMul(n.y + n.x, b.y - b.x, z, z);
    CongSym((n.y - n.x) * z, (b.y + b.x) * z);
    CongSym((n.y + n.x) * z, (b.y - b.x) * z);
    CongTrans(p, (b.y + b.x) * z, (n.y - n.x) * z);
    CongTrans(m, (b.y - b.x) * z, (n.y + n.x) * z);
    CongMul(n.x, -b.x, b.y, b.y);
    CongScale(2 * D, n.x * b.y, -b.x * b.y);
    CongMul(2 * D * (n.x * n.y), 2 * D * (-b.x * b.y), z, z);
    CongNeg(t2d, 2 * D * (b.x * b.y) * z);
    var d := 2 * D;
    assert d * (-b.x * b.y) * z == -(d * (b.x * b.y) * z);
    CongSym(2 * D * (n.x * n.y) * z, 2 * D * (-b.x * b.y) * z);
    CongTrans(-t2d, -(2 * D * (b.x * b.y) * z), 2 * D * (n.x * n.y) * z);
  }
}
