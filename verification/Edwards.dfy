/**
 The twisted Edwards curve -x^2 + y^2 = 1 + d x^2 y^2 over the integers modulo p, in affine coordinates.
 */
module Edwards {
  import opened PrimeField
  import opened AbelianGroup

  /** d = -121665 / 121666. */
  ghost const D: int := Residue(-121665 * Inv(121666))

  const D_VALUE: int := 0x52036cee2b6ffe738cc740797779e89800700a4d4141d8ab75eb4dca135978a3
  const SQRT_MINUS_ONE: int := 0x2b8324804fc1df0b2b4d00993dfbd7a72f431806ad2fe478c4ee1b274a0ea0b0

  lemma Computed()
    ensures (121666 * (D_VALUE + 1) - 1) % P == 0
    ensures D_VALUE * 121666 % P == -121665 % P
    ensures SQRT_MINUS_ONE * SQRT_MINUS_ONE % P == -1 % P
    ensures (D_VALUE + 1) % P != 0 && SQRT_MINUS_ONE % P != 0
  {}

  /** The quotient that defines d, as a number. */
  lemma CurveConstant()
    ensures D == D_VALUE
  {
    hide Cong, Residue, Unit, Inv;
    var w, d := Inv(121666), D_VALUE;
    Computed();
    CongMod(121666 * (D_VALUE + 1), 1);
    SmallMod(1);
    UnitBy(121666, D_VALUE + 1);
    InvIs(121666);
    CongMod(D_VALUE * 121666, -121665);
    CongScale(w, d * 121666, -121665);
    CongScale(d, 121666 * w, 1);
    assert w * (d * 121666) == d * (121666 * w) && w * -121665 == -121665 * w;
    CongSym(d * (121666 * w), d * 1);
    CongTrans(d, d * (121666 * w), -121665 * w);
    ResidueIsMod(-121665 * w);
    CongMod(d, -121665 * w);
    SmallMod(D_VALUE);
  }

  lemma Constants()
    ensures Cong(SQRT_MINUS_ONE * SQRT_MINUS_ONE, -1) && !Cong(SQRT_MINUS_ONE, 0)
    ensures !Cong(D + 1, 0) && !Cong(2, 0)
  {
    hide Cong;
    Computed();
    CurveConstant();
    CongMod(SQRT_MINUS_ONE * SQRT_MINUS_ONE, -1);
    CongMod(SQRT_MINUS_ONE, 0);
    CongMod(D_VALUE + 1, 0);
    CongMod(2, 0);
  }

  datatype Point = Point(x: int, y: int)

  /** The curve equation, on any representatives. */
  ghost predicate Eqn(x: int, y: int) {
    Cong(Product(y, y) - Product(x, x), 1 + Product(D, Product(Product(x, y), Product(x, y))))
  }

  lemma EqnIs(x: int, y: int)
    ensures Eqn(x, y) <==> Cong(y * y - x * x, 1 + D * ((x * y) * (x * y)))
  {
    hide Cong, Product;
    ProductIs(x, x);
    ProductIs(y, y);
    ProductIs(x, y);
    ProductIs(x * y, x * y);
    ProductIs(D, (x * y) * (x * y));
  }

  ghost predicate OnCurve(a: Point) {
    0 <= a.x < P && 0 <= a.y < P && Eqn(a.x, a.y)
  }

  ghost function Cross(a: Point, b: Point): int {
    Product(D, Product(Product(a.x, a.y), Product(b.x, b.y)))
  }

  function SumX(a: Point, b: Point): int {
    Product(a.x, b.y) + Product(a.y, b.x)
  }

  function SumY(a: Point, b: Point): int {
    Product(a.y, b.y) + Product(a.x, b.x)
  }

  lemma LawIs(a: Point, b: Point)
    ensures Cross(a, b) == D * ((a.x * a.y) * (b.x * b.y))
    ensures SumX(a, b) == a.x * b.y + a.y * b.x
    ensures SumY(a, b) == a.y * b.y + a.x * b.x
  {
    hide Product;
    ProductIs(a.x, a.y);
    ProductIs(b.x, b.y);
    ProductIs(a.x * a.y, b.x * b.y);
    ProductIs(D, (a.x * a.y) * (b.x * b.y));
    ProductIs(a.x, b.y);
    ProductIs(a.y, b.x);
    ProductIs(a.y, b.y);
    ProductIs(a.x, b.x);
  }

  /** n / u modulo p, for a unit u. */
  ghost function Quotient(n: int, u: int): (q: int)
    ensures 0 <= q < P
  {
    Residue(Product(n, Inv(u)))
  }

  /** The addition law. */
  ghost function Plus(a: Point, b: Point): Point {
    Point(Quotient(SumX(a, b), 1 + Cross(a, b)), Quotient(SumY(a, b), 1 - Cross(a, b)))
  }

  const NEUTRAL := Point(0, 1)

  ghost function Minus(a: Point): Point {
    Point(Residue(-a.x), a.y)
  }

  /** d is not a square modulo p; with p prime this makes the addition law complete. */
  ghost predicate NonSquare() {
    forall s :: NotRootOfD(s)
  }

  ghost predicate NotRootOfD(s: int) {
    !Cong(Product(s, s), D)
  }

  // ---- completeness of the law ----

  /** With d p q = e and e^2 = 1, the curve equation makes d times a square equal to a square. */
  lemma SquareRelation(i: int, x1: int, y1: int, x2: int, y2: int, e: int)
    requires Cong(i * i, -1) && Eqn(x1, y1) && Eqn(x2, y2) && e * e == 1 && Cong(D * ((x1 * y1) * (x2 * y2)), e)
    ensures Cong((i * x1 + e * y1) * (i * x1 + e * y1), D * ((x1 * y1 * (i * x2 + y2)) * (x1 * y1 * (i * x2 + y2))))
  {
    hide *;
    var u, w, p, q := i * x1 + e * y1, i * x2 + y2, x1 * y1, x2 * y2;
    var left := 1 + D * (p * p) + 2 * (i * (e * p));
    assert Cong(u * u, left) by { LeftSquare(i, x1, y1, e); }
    assert Cong(w * w, 1 + D * (q * q) + 2 * (i * q)) by { RightSquare(i, x2, y2); }
    assert Cong(D * ((p * w) * (p * w)), left) by { ScaledSquare(D, i, p, q, w, e); }
    CongSym(D * ((p * w) * (p * w)), left);
    CongTrans(u * u, left, D * ((p * w) * (p * w)));
  }

  lemma LeftSquare(i: int, x: int, y: int, e: int)
    requires Cong(i * i, -1) && Eqn(x, y) && e * e == 1
    ensures Cong((i * x + e * y) * (i * x + e * y), 1 + D * ((x * y) * (x * y)) + 2 * (i * (e * (x * y))))
  {
    hide Cong, Eqn;
    EqnIs(x, y);
    var p, u := x * y, i * x + e * y;
    var cross := 2 * (i * (e * p));
    LinearSquare(i, x, y, e);
    CongRefl(cross);
    CongAdd(y * y - x * x, 1 + D * (p * p), cross, cross);
    CongTrans(u * u, y * y - x * x + cross, 1 + D * (p * p) + cross);
  }

  lemma RightSquare(i: int, x: int, y: int)
    requires Cong(i * i, -1) && Eqn(x, y)
    ensures Cong((i * x + y) * (i * x + y), 1 + D * ((x * y) * (x * y)) + 2 * (i * (x * y)))
  {
    hide *;
    LeftSquare(i, x, y, 1);
    assert i * x + 1 * y == i * x + y && 1 * (x * y) == x * y;
  }

  /** d p^2 (1 + d q^2 + 2 i q) = d p^2 + k^2 + 2 i p k for k = d p q, and k is congruent to e. */
  lemma ScaledSquare(d: int, i: int, p: int, q: int, w: int, e: int)
    requires e * e == 1 && Cong(d * (p * q), e) && Cong(w * w, 1 + d * (q * q) + 2 * (i * q))
    ensures Cong(d * ((p * w) * (p * w)), 1 + d * (p * p) + 2 * (i * (e * p)))
  {
    hide *;
    var k := d * (p * q);
    CongScale(d * (p * p), w * w, 1 + d * (q * q) + 2 * (i * q));
    SquareOfProduct(d, p, w);
    ExpandWith(d, i, p, q);
    assert Cong(d * ((p * w) * (p * w)), d * (p * p) + k * k + 2 * (i * (k * p)));
    CongMul(k, e, k, e);
    CongRefl(p);
    CongMul(k, e, p, p);
    CongScale(2 * i, k * p, e * p);
    Reassociate2(i, k * p);
    Reassociate2(i, e * p);
    CongRefl(1 + d * (p * p));
    CongAdd(k * k, 1, 2 * (i * (k * p)), 2 * (i * (e * p)));
    CongRefl(d * (p * p));
    CongAdd(d * (p * p), d * (p * p), k * k + 2 * (i * (k * p)), 1 + 2 * (i * (e * p)));
    ThreeTerms(d * (p * p), k * k, 2 * (i * (k * p)), 2 * (i * (e * p)));
    CongTrans(d * ((p * w) * (p * w)), d * (p * p) + k * k + 2 * (i * (k * p)), 1 + d * (p * p) + 2 * (i * (e * p)));
  }

  lemma SquareOfProduct(d: int, p: int, w: int)
    ensures d * (p * p) * (w * w) == d * ((p * w) * (p * w))
  {
    assert (p * p) * (w * w) == (p * w) * (p * w);
    assert d * (p * p) * (w * w) == d * ((p * p) * (w * w));
  }

  lemma Reassociate2(i: int, x: int)
    ensures 2 * i * x == 2 * (i * x)
  {}

  lemma ThreeTerms(a: int, b: int, c: int, e: int)
    ensures a + (b + c) == a + b + c && a + (1 + e) == 1 + a + e
  {}

  lemma ExpandWith(d: int, i: int, p: int, q: int)
    ensures d * (p * p) * (1 + d * (q * q) + 2 * (i * q))
         == d * (p * p) + (d * (p * q)) * (d * (p * q)) + 2 * (i * (d * (p * q) * p))
  {}

  /** (i x + e y)^2 for e = 1 or -1. */
  lemma LinearSquare(i: int, x: int, y: int, e: int)
    requires Cong(i * i, -1) && e * e == 1
    ensures Cong((i * x + e * y) * (i * x + e * y), y * y - x * x + 2 * (i * (e * (x * y))))
  {
    hide Cong;
    LinearSquareWith(i, x, y, e);
    CongRefl(x * x);
    CongMul(i * i, -1, x * x, x * x);
    CongRefl(y * y + 2 * (i * (e * (x * y))));
    CongAdd((i * i) * (x * x), -1 * (x * x), y * y + 2 * (i * (e * (x * y))), y * y + 2 * (i * (e * (x * y))));
  }

  lemma LinearSquareWith(i: int, x: int, y: int, e: int)
    requires e * e == 1
    ensures (i * x + e * y) * (i * x + e * y) == (i * i) * (x * x) + (y * y + 2 * (i * (e * (x * y))))
  {
    assert (i * x + e * y) * (i * x + e * y) == i * x * (i * x) + 2 * (i * x * (e * y)) + e * y * (e * y);
    assert e * y * (e * y) == (e * e) * (y * y);
  }

  lemma NotSquareRatio(h: int, g: int)
    requires PrimeFacts() && NonSquare() && Cong(h * h, D * (g * g))
    ensures Cong(g, 0)
  {
    hide Cong, PrimeFacts, Unit, Product;
    if !Cong(g, 0) {
      UnitIffNonZero(g);
      var w := UnitIs(g);
      assert NotRootOfD(h * w);
      ProductIs(h * w, h * w);
      CongRefl(w * w);
      CongMul(h * h, D * (g * g), w * w, w * w);
      CongMul(g * w, 1, g * w, 1);
      CongScale(D, (g * w) * (g * w), 1);
      assert D * (g * g) * (w * w) == D * ((g * w) * (g * w)) by {
        assert (g * g) * (w * w) == (g * w) * (g * w);
      }
      assert (h * h) * (w * w) == (h * w) * (h * w);
      CongTrans((h * w) * (h * w), D * ((g * w) * (g * w)), D);
    }
  }

  lemma NonZeroFactor(a: int, b: int, c: int)
    requires !Cong(c, 0) && Cong(a * b, c)
    ensures !Cong(a, 0)
  {
    hide Cong;
    if Cong(a, 0) {
      CongRefl(b);
      CongMul(a, 0, b, b);
      CongSym(a * b, c);
      CongTrans(c, a * b, 0);
    }
  }

  /** d x1 y1 x2 y2 is never 1 or -1 on the curve. */
  lemma CrossNotUnitRoot(x1: int, y1: int, x2: int, y2: int, e: int)
    requires PrimeFacts() && NonSquare() && Eqn(x1, y1) && Eqn(x2, y2) && e * e == 1
    ensures !Cong(D * ((x1 * y1) * (x2 * y2)), e)
  {
    hide Cong, PrimeFacts, NonSquare, Eqn;
    if Cong(D * ((x1 * y1) * (x2 * y2)), e) {
      var i := SQRT_MINUS_ONE;
      Constants();
      var k := D * ((x1 * y1) * (x2 * y2));
      assert !Cong(e, 0) by {
        SignNonZero(e);
      }
      SquareRelation(i, x1, y1, x2, y2, e);
      NotSquareRatio(i * x1 + e * y1, x1 * y1 * (i * x2 + y2));
      EqnFlip(x2, y2);
      CrossForms(D, x1 * y1, x2, y2);
      CongNeg(k, e);
      SquareRelation(i, x1, y1, x2, -y2, -e);
      NotSquareRatio(i * x1 + -e * y1, x1 * y1 * (i * x2 + -y2));
      NonZeroFactor(x1 * y1, D * (x2 * y2), e);
      ZeroFactor(x1 * y1, i * x2 + y2);
      ZeroFactor(x1 * y1, i * x2 + -y2);
      CongAdd(i * x2 + y2, 0, i * x2 + -y2, 0);
      assert i * x2 + y2 + (i * x2 + -y2) == 2 * (i * x2);
      ZeroFactor(2, i * x2);
      ZeroFactor(i, x2);
      NonZeroFactor(x2, D * ((x1 * y1) * y2), e);
    }
  }

  lemma CrossForms(d: int, a: int, x: int, y: int)
    ensures d * (a * (x * -y)) == -(d * (a * (x * y)))
    ensures a * (d * (x * y)) == d * (a * (x * y))
    ensures x * (d * (a * y)) == d * (a * (x * y))
  {
    assert x * (a * y) == a * (x * y);
    assert x * (d * (a * y)) == d * (x * (a * y));
  }

  lemma SignNonZero(e: int)
    requires e * e == 1
    ensures !Cong(e, 0)
  {
    hide Cong;
    assert e == 1 || e == -1;
    CongMod(e, 0);
  }

  lemma EqnFlip(x: int, y: int)
    requires Eqn(x, y)
    ensures Eqn(x, -y) && Eqn(-x, y)
  {
    hide Cong, Eqn;
    EqnIs(x, y);
    EqnIs(x, -y);
    EqnIs(-x, y);
    assert x * -y == -(x * y) && -x * y == -(x * y);
    SquareOfNegative(x * y);
    SquareOfNegative(x);
    SquareOfNegative(y);
  }

  lemma SquareOfNegative(x: int)
    ensures -x * -x == x * x
  {}

  lemma NotOne(k: int)
    ensures !Cong(k, 1) ==> !Cong(1 - k, 0)
    ensures !Cong(k, -1) ==> !Cong(1 + k, 0)
  {
    hide Cong;
    if Cong(1 - k, 0) {
      CongNeg(1 - k, 0);
      CongAlike(k, 1, -(1 - k), -0, 0);
    }
    CongAlike(1 + k, 0, k, -1, 0);
  }

  /** No denominator of the addition law vanishes on the curve. */
  lemma Complete(a: Point, b: Point)
    requires PrimeFacts() && NonSquare() && OnCurve(a) && OnCurve(b)
    ensures Unit(1 + Cross(a, b)) && Unit(1 - Cross(a, b))
  {
    hide PrimeFacts, NonSquare, Unit, Cong, Cross, Eqn;
    LawIs(a, b);
    NotOne(Cross(a, b));
    CrossNotUnitRoot(a.x, a.y, b.x, b.y, 1);
    CrossNotUnitRoot(a.x, a.y, b.x, b.y, -1);
    UnitIffNonZero(1 + Cross(a, b));
    UnitIffNonZero(1 - Cross(a, b));
  }

  // ---- closure ----

  lemma Binomial(a: int, b: int)
    ensures (a + b) * (a + b) == a * a + 2 * (a * b) + b * b
  {}

  lemma SwapFactors(a: int, b: int, c: int, e: int)
    ensures (a * b) * (c * e) == (a * c) * (b * e)
  {}

  lemma SumProducts(x1: int, y1: int, x2: int, y2: int)
    ensures (y1 * y2 + x1 * x2) * (y1 * y2 + x1 * x2) - (x1 * y2 + y1 * x2) * (x1 * y2 + y1 * x2)
         == (y1 * y1 - x1 * x1) * (y2 * y2 - x2 * x2)
    ensures (y1 * y2 + x1 * x2) * (y1 * y2 + x1 * x2) + (x1 * y2 + y1 * x2) * (x1 * y2 + y1 * x2)
         == (y1 * y1 + x1 * x1) * (y2 * y2 + x2 * x2) + 4 * ((x1 * y1) * (x2 * y2))
  {
    var a, b, c, e := x1 * x1, y1 * y1, x2 * x2, y2 * y2;
    Binomial(y1 * y2, x1 * x2);
    SwapFactors(y1, y2, y1, y2);
    SwapFactors(x1, x2, x1, x2);
    SwapFactors(y1, y2, x1, x2);
    Binomial(x1 * y2, y1 * x2);
    SwapFactors(x1, y2, x1, y2);
    SwapFactors(y1, x2, y1, x2);
    SwapFactors(x1, y2, y1, x2);
    var m := (x1 * y1) * (x2 * y2);
    assert (y1 * y2 + x1 * x2) * (y1 * y2 + x1 * x2) == b * e + 2 * m + a * c;
    assert (x1 * y2 + y1 * x2) * (x1 * y2 + y1 * x2) == a * e + 2 * m + b * c;
    Corners(a, b, c, e);
  }

  lemma Corners(a: int, b: int, c: int, e: int)
    ensures b * e + a * c - a * e - b * c == (b - a) * (e - c)
    ensures b * e + a * c + a * e + b * c == (b + a) * (e + c)
  {}

  lemma SumCross(x1: int, y1: int, x2: int, y2: int)
    ensures (x1 * y2 + y1 * x2) * (y1 * y2 + x1 * x2)
         == (x1 * y1) * (y2 * y2 + x2 * x2) + (x2 * y2) * (y1 * y1 + x1 * x1)
  {
    SwapFactors(x1, y2, y1, y2);
    SwapFactors(x1, y2, x1, x2);
    SwapFactors(y1, x2, y1, y2);
    SwapFactors(y1, x2, x1, x2);
    FourTerms(x1 * y2, y1 * x2, y1 * y2, x1 * x2);
    FourTerms(x1 * y1, 0, y2 * y2, x2 * x2);
    FourTerms(x2 * y2, 0, y1 * y1, x1 * x1);
  }

  lemma FourTerms(a: int, b: int, c: int, e: int)
    ensures (a + b) * (c + e) == a * c + a * e + b * c + b * e
  {}

  lemma SumOfSquares(x: int, y: int)
    ensures (y * y + x * x) * (y * y + x * x)
         == (y * y - x * x) * (y * y - x * x) + 4 * ((x * y) * (x * y))
  {
    var a, b := x * x, y * y;
    assert (x * y) * (x * y) == a * b;
  }

  lemma SplitSides(n1: int, n2: int, k: int)
    ensures (n2 * (1 + k)) * (n2 * (1 + k)) - (n1 * (1 - k)) * (n1 * (1 - k))
         == (n2 * n2 - n1 * n1) * (1 + k * k) + 2 * (k * (n2 * n2 + n1 * n1))
  {
    var a, b := n1 * n1, n2 * n2;
    SwapFactors(n2, 1 + k, n2, 1 + k);
    SwapFactors(n1, 1 - k, n1, 1 - k);
    Binomial(1, k);
    Binomial(1, -k);
    FourTerms(b, 0, 1 + k * k, 2 * k);
    FourTerms(a, 0, 1 + k * k, -2 * k);
  }

  /** The one identity closure rests on, in alpha = d p^2 and beta = d q^2. */
  lemma Balance(a: int, b: int)
    ensures (1 + a) * (1 + b) * (1 + a * b)
         == (1 - a * b) * (1 - a * b) + a * ((1 + b) * (1 + b)) + b * ((1 + a) * (1 + a))
  {
    assert (1 + a) * (1 + b) == 1 + a + b + a * b;
  }

  /** Both sides of the curve equation for a sum, with the denominators cleared. */
  lemma ClearedEquation(x1: int, y1: int, x2: int, y2: int)
    requires Eqn(x1, y1) && Eqn(x2, y2)
    ensures var k := D * ((x1 * y1) * (x2 * y2));
            var n1 := x1 * y2 + y1 * x2;
            var n2 := y1 * y2 + x1 * x2;
            Cong((n2 * (1 + k)) * (n2 * (1 + k)) - (n1 * (1 - k)) * (n1 * (1 - k)),
                 (1 - k * k) * (1 - k * k) + D * ((n1 * n2) * (n1 * n2)))
  {
    hide Cong, Eqn;
    EqnIs(x1, y1);
    EqnIs(x2, y2);
    var d := D;
    var p, q := x1 * y1, x2 * y2;
    var k := d * (p * q);
    var n1, n2 := x1 * y2 + y1 * x2, y1 * y2 + x1 * x2;
    var s1, s2 := y1 * y1 - x1 * x1, y2 * y2 - x2 * x2;
    var t1, t2 := 1 + d * (p * p), 1 + d * (q * q);
    var u, v := y1 * y1 + x1 * x1, y2 * y2 + x2 * x2;
    SumProducts(x1, y1, x2, y2);
    SumCross(x1, y1, x2, y2);
    SplitSides(n1, n2, k);
    var lhs := (n2 * (1 + k)) * (n2 * (1 + k)) - (n1 * (1 - k)) * (n1 * (1 - k));
    assert lhs == (s1 * s2) * (1 + k * k) + 2 * (k * (u * v + 4 * (p * q)));
    var rest := 2 * (k * (u * v + 4 * (p * q)));
    CongMul(s1, t1, s2, t2);
    CongRefl(1 + k * k);
    CongMul(s1 * s2, t1 * t2, 1 + k * k, 1 + k * k);
    CongRefl(rest);
    CongAdd((s1 * s2) * (1 + k * k), (t1 * t2) * (1 + k * k), rest, rest);
    var rhs := (1 - k * k) * (1 - k * k) + d * ((n1 * n2) * (n1 * n2));
    var mid := (1 - k * k) * (1 - k * k) + d * (p * p) * (t2 * t2 + 4 * (q * q)) + d * (q * q) * (t1 * t1 + 4 * (p * p))
               + 2 * (k * (u * v));
    RightSide(d, p, q, u, v, s1, s2, t1, t2, k, x1, y1, x2, y2);
    Meet(d, p, q, k, t1, t2, u * v);
    assert (t1 * t2) * (1 + k * k) + rest == mid;
    CongSym(rhs, mid);
    CongTrans(lhs, mid, rhs);
  }

  lemma RightSide(d: int, p: int, q: int, u: int, v: int, s1: int, s2: int, t1: int, t2: int, k: int,
                  x1: int, y1: int, x2: int, y2: int)
    requires p == x1 * y1 && q == x2 * y2 && u == y1 * y1 + x1 * x1 && v == y2 * y2 + x2 * x2
    requires s1 == y1 * y1 - x1 * x1 && s2 == y2 * y2 - x2 * x2 && k == d * (p * q)
    requires Cong(s1, t1) && Cong(s2, t2)
    ensures Cong((1 - k * k) * (1 - k * k) + d * ((p * v + q * u) * (p * v + q * u)),
                 (1 - k * k) * (1 - k * k) + d * (p * p) * (t2 * t2 + 4 * (q * q))
                 + d * (q * q) * (t1 * t1 + 4 * (p * p)) + 2 * (k * (u * v)))
  {
    hide Cong;
    SumOfSquares(x1, y1);
    SumOfSquares(x2, y2);
    var c := (1 - k * k) * (1 - k * k);
    CrossSquare(d, p, q, u, v);
    assert u * u == s1 * s1 + 4 * (p * p) && v * v == s2 * s2 + 4 * (q * q);
    CongMul(s1, t1, s1, t1);
    CongMul(s2, t2, s2, t2);
    CongRefl(4 * (p * p));
    CongRefl(4 * (q * q));
    CongAdd(s1 * s1, t1 * t1, 4 * (p * p), 4 * (p * p));
    CongAdd(s2 * s2, t2 * t2, 4 * (q * q), 4 * (q * q));
    CongScale(d * (q * q), u * u, t1 * t1 + 4 * (p * p));
    CongScale(d * (p * p), v * v, t2 * t2 + 4 * (q * q));
    CongAdd(d * (p * p) * (v * v), d * (p * p) * (t2 * t2 + 4 * (q * q)),
            d * (q * q) * (u * u), d * (q * q) * (t1 * t1 + 4 * (p * p)));
    CongRefl(c + 2 * (k * (u * v)));
    CongAdd(d * (p * p) * (v * v) + d * (q * q) * (u * u),
            d * (p * p) * (t2 * t2 + 4 * (q * q)) + d * (q * q) * (t1 * t1 + 4 * (p * p)),
            c + 2 * (k * (u * v)), c + 2 * (k * (u * v)));
  }

  lemma CrossSquare(d: int, p: int, q: int, u: int, v: int)
    ensures d * ((p * v + q * u) * (p * v + q * u))
         == d * (p * p) * (v * v) + d * (q * q) * (u * u) + 2 * (d * (p * q) * (u * v))
  {
    Binomial(p * v, q * u);
    SwapFactors(p, v, p, v);
    SwapFactors(q, u, q, u);
    SwapFactors(p, v, q, u);
    assert (p * q) * (v * u) == (p * q) * (u * v);
    var a, b, c := (p * p) * (v * v), (q * q) * (u * u), (p * q) * (u * v);
    FourTerms(d, 0, a + b, 2 * c);
    FourTerms(d, 0, a, b);
    Reassociate(d, p * p, v * v);
    Reassociate(d, q * q, u * u);
    Reassociate(d, p * q, u * v);
  }

  lemma Meet(d: int, p: int, q: int, k: int, t1: int, t2: int, w: int)
    requires k == d * (p * q) && t1 == 1 + d * (p * p) && t2 == 1 + d * (q * q)
    ensures (t1 * t2) * (1 + k * k) + 2 * (k * (w + 4 * (p * q)))
         == (1 - k * k) * (1 - k * k) + d * (p * p) * (t2 * t2 + 4 * (q * q)) + d * (q * q) * (t1 * t1 + 4 * (p * p))
            + 2 * (k * w)
  {
    SwapFactors(p, q, p, q);
    KSquare(d, p * q, p * p, q * q);
    Reassociate(d, p * q, p * q);
    Reassociate(d, p * p, q * q);
    Reassociate(d, q * q, p * p);
    MeetWith(d * (p * p), d * (q * q), k, p * q, p * p, q * q, w);
  }

  lemma Reassociate(a: int, b: int, c: int)
    ensures (a * b) * c == a * (b * c)
  {}

  lemma MeetWith(a: int, b: int, k: int, m: int, p2: int, q2: int, w: int)
    requires k * k == a * b && k * m == a * q2 && k * m == b * p2
    ensures ((1 + a) * (1 + b)) * (1 + k * k) + 2 * (k * (w + 4 * m))
         == (1 - k * k) * (1 - k * k) + a * ((1 + b) * (1 + b) + 4 * q2) + b * ((1 + a) * (1 + a) + 4 * p2)
            + 2 * (k * w)
  {
    Balance(a, b);
    AddFour(a, (1 + b) * (1 + b), q2);
    AddFour(b, (1 + a) * (1 + a), p2);
    AddFour(k, w, m);
  }

  lemma AddFour(a: int, x: int, y: int)
    ensures a * (x + 4 * y) == a * x + 4 * (a * y)
  {}

  lemma KSquare(d: int, m: int, a: int, b: int)
    requires m * m == a * b
    ensures (d * m) * (d * m) == (d * a) * (d * b)
  {
    assert (d * m) * (d * m) == (d * d) * (m * m) == (d * d) * (a * b) == (d * a) * (d * b);
  }

  lemma ScaledInverse(n: int, u: int)
    requires Unit(u)
    ensures Cong(Quotient(n, u) * u, n)
  {
    hide Unit, Cong, Residue, Product, Inv;
    var w := Inv(u);
    ProductIs(n, w);
    InvIs(u);
    CongRefl(u);
    CongMul(Residue(n * w), n * w, u, u);
    CongScale(n, u * w, 1);
    assert n * w * u == n * (u * w);
    CongTrans(Residue(n * w) * u, n * (u * w), n);
  }

  /** The coordinates of a sum, by the equations that determine them. */
  lemma PlusEquations(a: Point, b: Point)
    requires Unit(1 + Cross(a, b)) && Unit(1 - Cross(a, b))
    ensures Cong(Plus(a, b).x * (1 + Cross(a, b)), SumX(a, b))
    ensures Cong(Plus(a, b).y * (1 - Cross(a, b)), SumY(a, b))
  {
    hide Unit, Cong, Cross, SumX, SumY, Quotient;
    ScaledInverse(SumX(a, b), 1 + Cross(a, b));
    ScaledInverse(SumY(a, b), 1 - Cross(a, b));
  }

  lemma CanonicalUnique(a: int, b: int)
    requires 0 <= a < P && 0 <= b < P && Cong(a, b)
    ensures a == b
  {
    hide Cong;
    CongMod(a, b);
  }

  lemma PlusUnique(a: Point, b: Point, c: Point)
    requires Unit(1 + Cross(a, b)) && Unit(1 - Cross(a, b))
    requires 0 <= c.x < P && 0 <= c.y < P
    requires Cong(c.x * (1 + Cross(a, b)), SumX(a, b)) && Cong(c.y * (1 - Cross(a, b)), SumY(a, b))
    ensures c == Plus(a, b)
  {
    hide Unit, Cong, Cross, SumX, SumY;
    PlusEquations(a, b);
    var s := Plus(a, b);
    CongSym(s.x * (1 + Cross(a, b)), SumX(a, b));
    CongSym(s.y * (1 - Cross(a, b)), SumY(a, b));
    CongTrans(c.x * (1 + Cross(a, b)), SumX(a, b), s.x * (1 + Cross(a, b)));
    CongTrans(c.y * (1 - Cross(a, b)), SumY(a, b), s.y * (1 - Cross(a, b)));
    Cancel(1 + Cross(a, b), c.x, s.x);
    Cancel(1 - Cross(a, b), c.y, s.y);
    CanonicalUnique(c.x, s.x);
    CanonicalUnique(c.y, s.y);
  }

  lemma PlusCommutes(a: Point, b: Point)
    ensures Plus(a, b) == Plus(b, a)
  {
    hide Quotient, Cross, SumX, SumY;
    LawIs(a, b);
    LawIs(b, a);
    assert Cross(a, b) == Cross(b, a);
  }

  lemma ScaledSquares(x: int, y: int, w: int)
    ensures (y * w) * (y * w) - (x * w) * (x * w) == (y * y - x * x) * (w * w)
    ensures w * w + D * ((x * y * w) * (x * y * w)) == (1 + D * ((x * y) * (x * y))) * (w * w)
  {
    SwapFactors(y, w, y, w);
    SwapFactors(x, w, x, w);
    SwapFactors(x * y, w, x * y, w);
    Reassociate(D, (x * y) * (x * y), w * w);
    FourTerms(y * y, -(x * x), w * w, 0);
    FourTerms(1, D * ((x * y) * (x * y)), w * w, 0);
  }

  /** The addition law stays on the curve. */
  lemma PlusOnCurve(a: Point, b: Point)
    requires OnCurve(a) && OnCurve(b) && Unit(1 + Cross(a, b)) && Unit(1 - Cross(a, b))
    ensures OnCurve(Plus(a, b))
  {
    hide Unit, Cong, Quotient, Cross, SumX, SumY, Eqn;
    LawIs(a, b);
    EqnIs(Plus(a, b).x, Plus(a, b).y);
    var s, k := Plus(a, b), Cross(a, b);
    var n1, n2 := SumX(a, b), SumY(a, b);
    var w := 1 - k * k;
    PlusEquations(a, b);
    CongSym(s.x * (1 + k), n1);
    CongSym(s.y * (1 - k), n2);
    CongRefl(1 - k);
    CongRefl(1 + k);
    CongMul(n1, s.x * (1 + k), 1 - k, 1 - k);
    CongMul(n2, s.y * (1 - k), 1 + k, 1 + k);
    Conjugates(s.x, s.y, k);
    CongMul(n1, s.x * (1 + k), n2, s.y * (1 - k));
    var l1, l2, r := n1 * (1 - k), n2 * (1 + k), n1 * n2;
    CongMul(l1, s.x * w, l1, s.x * w);
    CongMul(l2, s.y * w, l2, s.y * w);
    CongAdd(l2 * l2, (s.y * w) * (s.y * w), l1 * l1, (s.x * w) * (s.x * w));
    CongMul(r, s.x * s.y * w, r, s.x * s.y * w);
    CongScale(D, r * r, (s.x * s.y * w) * (s.x * s.y * w));
    CongRefl(w * w);
    CongAdd(w * w, w * w, D * (r * r), D * ((s.x * s.y * w) * (s.x * s.y * w)));
    ScaledSquares(s.x, s.y, w);
    ClearedEquation(a.x, a.y, b.x, b.y);
    FinishEquation(s.x, s.y, w, l2 * l2 - l1 * l1, w * w + D * (r * r));
    assert Unit(w) by {
      UnitMul(1 + k, 1 - k);
      assert (1 + k) * (1 - k) == w;
    }
    UnitMul(w, w);
    Cancel(w * w, s.y * s.y - s.x * s.x, 1 + D * ((s.x * s.y) * (s.x * s.y)));
  }

  lemma Conjugates(x: int, y: int, k: int)
    ensures (x * (1 + k)) * (1 - k) == x * (1 - k * k)
    ensures (y * (1 - k)) * (1 + k) == y * (1 - k * k)
    ensures (x * (1 + k)) * (y * (1 - k)) == x * y * (1 - k * k)
  {
    assert (1 + k) * (1 - k) == 1 - k * k;
    Reassociate(x, 1 + k, 1 - k);
    Reassociate(y, 1 - k, 1 + k);
    SwapFactors(x, 1 + k, y, 1 - k);
  }

  lemma FinishEquation(x: int, y: int, w: int, l: int, r: int)
    requires Cong(l, r)
    requires Cong(l, (y * y - x * x) * (w * w)) && Cong(r, (1 + D * ((x * y) * (x * y))) * (w * w))
    ensures Cong((y * y - x * x) * (w * w), (1 + D * ((x * y) * (x * y))) * (w * w))
  {
    hide Cong;
    CongSym(l, (y * y - x * x) * (w * w));
    CongTrans((y * y - x * x) * (w * w), l, r);
    CongTrans((y * y - x * x) * (w * w), r, (1 + D * ((x * y) * (x * y))) * (w * w));
  }

  lemma NeutralOnCurve()
    ensures OnCurve(NEUTRAL)
  {
    hide Cong;
    assert 1 * 1 - 0 * 0 == 1 + D * ((0 * 1) * (0 * 1));
    CongRefl(1);
  }

  lemma PlusNeutral(a: Point)
    requires OnCurve(a)
    ensures Plus(a, NEUTRAL) == a
  {
    hide Cong, Plus;
    assert Cross(a, NEUTRAL) == 0;
    CongRefl(1);
    CongRefl(a.x);
    CongRefl(a.y);
    UnitOne();
    assert Cong(1 * 1, 1);
    assert SumX(a, NEUTRAL) == a.x && SumY(a, NEUTRAL) == a.y;
    PlusUnique(a, NEUTRAL, a);
  }

  lemma MinusOnCurve(a: Point)
    requires OnCurve(a)
    ensures OnCurve(Minus(a))
  {
    hide Cong, Residue;
    CongRefl(a.y);
    EqnFlip(a.x, a.y);
    EqnCong(-a.x, a.y, Residue(-a.x), a.y);
  }

  lemma EqnCong(x: int, y: int, u: int, v: int)
    requires Eqn(x, y) && Cong(u, x) && Cong(v, y)
    ensures Eqn(u, v)
  {
    hide Cong, Eqn;
    EqnIs(x, y);
    EqnIs(u, v);
    CongMul(u, x, u, x);
    CongMul(v, y, v, y);
    CongAdd(v * v, y * y, u * u, x * x);
    CongMul(u, x, v, y);
    CongMul(u * v, x * y, u * v, x * y);
    CongScale(D, (u * v) * (u * v), (x * y) * (x * y));
    CongRefl(1);
    CongAdd(1, 1, D * ((u * v) * (u * v)), D * ((x * y) * (x * y)));
    CongSym(1 + D * ((u * v) * (u * v)), 1 + D * ((x * y) * (x * y)));
    CongTrans(v * v - u * u, y * y - x * x, 1 + D * ((x * y) * (x * y)));
    CongTrans(v * v - u * u, 1 + D * ((x * y) * (x * y)), 1 + D * ((u * v) * (u * v)));
  }

  lemma OppositeEquations(d: int, x: int, y: int, u: int)
    requires Cong(y * y - x * x, 1 + d * ((x * y) * (x * y))) && Cong(u, -x)
    ensures Cong(0, x * y + y * u)
    ensures Cong(1 - d * ((x * y) * (u * y)), y * y + x * u)
  {
    hide Cong;
    var p := x * y;
    CongRefl(y);
    CongRefl(x);
    CongMul(u, -x, y, y);
    assert -x * y == -p;
    CongRefl(p);
    CongAdd(p, p, u * y, -p);
    CongSym(p + u * y, 0);
    CongMul(u, -x, x, x);
    assert -x * x == -(x * x);
    CongRefl(y * y);
    CongAdd(y * y, y * y, u * x, -(x * x));
    CongTrans(y * y + u * x, y * y - x * x, 1 + d * (p * p));
    CongRefl(p);
    CongMul(p, p, u * y, -p);
    assert p * -p == -(p * p);
    CongScale(d, p * (u * y), -(p * p));
    assert d * -(p * p) == -(d * (p * p));
    CongRefl(1);
    CongAdd(1, 1, d * (p * (u * y)), -(d * (p * p)));
    CongSym(y * y + u * x, 1 + d * (p * p));
    CongTrans(1 - d * (p * (u * y)), 1 + d * (p * p), y * y + u * x);
  }

  lemma MinusX(a: Point)
    ensures Cong(Minus(a).x, -a.x) && Minus(a).y == a.y
  {
    hide Cong, Residue;
  }

  lemma PlusMinus(a: Point)
    requires OnCurve(a) && Unit(1 + Cross(a, Minus(a))) && Unit(1 - Cross(a, Minus(a)))
    ensures Plus(a, Minus(a)) == NEUTRAL
  {
    hide Unit, Plus, Cross, Cong, Minus;
    MinusX(a);
    PlusMinusWith(a, Minus(a));
  }

  lemma PlusMinusWith(a: Point, b: Point)
    requires Eqn(a.x, a.y) && Unit(1 + Cross(a, b)) && Unit(1 - Cross(a, b))
    requires Cong(b.x, -a.x) && b.y == a.y
    ensures Plus(a, b) == NEUTRAL
  {
    hide Cong, Unit, Plus, Eqn, Cross, SumX, SumY;
    EqnIs(a.x, a.y);
    LawIs(a, b);
    OppositeEquations(D, a.x, a.y, b.x);
    PlusUnique(a, b, NEUTRAL);
  }

  // ---- the group ----

  /** The group of points on the curve. */
  ghost function Curve(): Group<Point> {
    Group((a: Point) => OnCurve(a), (a: Point, b: Point) => Plus(a, b), NEUTRAL, (a: Point) => Minus(a))
  }

  ghost predicate AssociativeAt(a: Point, b: Point, c: Point) {
    OnCurve(a) && OnCurve(b) && OnCurve(c) ==> Plus(Plus(a, b), c) == Plus(a, Plus(b, c))
  }

  ghost predicate Associative() {
    forall a, b, c :: AssociativeAt(a, b, c)
  }

  /** Everything taken from number theory: p is prime, d is not a square, and the addition law is associative. */
  ghost predicate CurveFacts() {
    PrimeFacts() && NonSquare() && Associative()
  }

  /** Under those facts the points form an abelian group under the addition law. */
  lemma CurveAbelian()
    requires CurveFacts()
    ensures Abelian(Curve())
  {
    hide OnCurve, Plus, Minus, PrimeFacts, NonSquare, Unit, Cross;
    var g := Curve();
    NeutralOnCurve();
    forall a, b ensures Commutes(g, a, b) {
      if g.mem(a) && g.mem(b) {
        Complete(a, b);
        PlusOnCurve(a, b);
        PlusCommutes(a, b);
      }
    }
    forall a, b, c ensures Associates(g, a, b, c) {
      assert AssociativeAt(a, b, c);
    }
    forall a ensures Inverts(g, a) {
      if g.mem(a) {
        PlusNeutral(a);
        MinusOnCurve(a);
        Complete(a, Minus(a));
        PlusMinus(a);
      }
    }
  }

  /** The base point. */
  const BASE := Point(0x216936d3cd6e53fec0a4e231fdd6dc5c692cc7609525a7b2c9562d608f25d51a,
                      0x6666666666666666666666666666666666666666666666666666666666666658)

  lemma BaseOnCurve()
    ensures OnCurve(BASE)
  {
    hide Cong, Eqn;
    EqnIs(BASE.x, BASE.y);
    CurveConstant();
    BaseEquation();
    CongMod(BASE.y * BASE.y - BASE.x * BASE.x, 1 + D_VALUE * ((BASE.x * BASE.y) * (BASE.x * BASE.y)));
  }

  lemma BaseEquation()
    ensures (BASE.y * BASE.y - BASE.x * BASE.x) % P == (1 + D_VALUE * ((BASE.x * BASE.y) * (BASE.x * BASE.y))) % P
  {}
}
