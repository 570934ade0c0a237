/** Congruence modulo the field prime p = 2^255 - 19. */
module PrimeField {
  const P: int := 0x7fffffffffffffffffffffffffffffffffffffffffffffffffffffffffffffed

  /**
   a times b, by repeated addition. The definitions of this project use it for products of field elements, so that
   they stay folded; the lemmas named `...Is` unfold them.
   */
  function Product(a: int, b: int): int
    decreases if b < 0 then -b else b
  {
    if b == 0 then 0 else if b > 0 then Product(a, b - 1) + a else Product(a, b + 1) - a
  }

  lemma {:induction false} ProductIs(a: int, b: int)
    ensures Product(a, b) == a * b
    decreases if b < 0 then -b else b
  {
    if b > 0 {
      ProductIs(a, b - 1);
    } else if b < 0 {
      ProductIs(a, b + 1);
    }
  }

  /** k times p, by repeated addition. */
  function Multiple(k: int): int
    decreases if k < 0 then -k else k
  {
    if k == 0 then 0 else if k > 0 then Multiple(k - 1) + P else Multiple(k + 1) - P
  }

  lemma {:induction false} MultipleIs(k: int)
    ensures Multiple(k) == P * k
    decreases if k < 0 then -k else k
  {
    if k > 0 {
      MultipleIs(k - 1);
    } else if k < 0 {
      MultipleIs(k + 1);
    }
  }

  ghost predicate Cong(a: int, b: int) {
    exists k :: Multiple(k) == a - b
  }

  lemma CongQuotient(a: int, b: int) returns (k: int)
    requires Cong(a, b)
    ensures a == b + P * k
  {
    hide Multiple;
    k :| Multiple(k) == a - b;
    MultipleIs(k);
  }

  lemma CongByMultiple(a: int, b: int, k: int)
    requires a == b + P * k
    ensures Cong(a, b)
  {
    hide Multiple;
    MultipleIs(k);
  }

  lemma DivideP(x: int)
    ensures x == P * (x / P) + x % P && 0 <= x % P < P
  {}

  lemma RemainderIs(x: int, q: int, r: int)
    requires x == P * q + r && 0 <= r < P
    ensures x % P == r
  {}

  lemma SmallMod(x: int)
    requires 0 <= x < P
    ensures x % P == x
  {}

  lemma CongMod(a: int, b: int)
    ensures Cong(a, b) <==> a % P == b % P
  {
    hide Cong;
    DivideP(a);
    DivideP(b);
    if Cong(a, b) {
      var k := CongQuotient(a, b);
      RemainderIs(a, b / P + k, b % P);
    }
    if a % P == b % P {
      CongByMultiple(a, b, a / P - b / P);
    }
  }

  /** The residue modulo p. */
  ghost function Residue(x: int): (r: int)
    ensures 0 <= r < P && Cong(r, x)
  {
    RemainderCong(x);
    var r :| 0 <= r < P && Cong(r, x);
    r
  }

  lemma RemainderCong(x: int)
    ensures 0 <= x % P < P && Cong(x % P, x)
  {
    hide Cong;
    CongMod(x % P, x);
  }

  lemma ResidueIsMod(x: int)
    ensures Residue(x) == x % P
  {
    hide Cong;
    CongMod(Residue(x), x);
  }

  lemma CongTrans(a: int, b: int, c: int)
    requires Cong(a, b) && Cong(b, c)
    ensures Cong(a, c)
  {
    hide Cong;
    var k := CongQuotient(a, b);
    var l := CongQuotient(b, c);
    CongByMultiple(a, c, k + l);
  }

  /** Differences that agree up to a multiple of p. */
  lemma CongAlike(a: int, b: int, c: int, d: int, j: int)
    requires a - b == c - d + P * j
    ensures Cong(a, b) <==> Cong(c, d)
  {
    hide Cong;
    if Cong(a, b) {
      var k := CongQuotient(a, b);
      CongByMultiple(c, d, k - j);
    }
    if Cong(c, d) {
      var k := CongQuotient(c, d);
      CongByMultiple(a, b, k + j);
    }
  }

  lemma CongAdd(a: int, b: int, c: int, d: int)
    requires Cong(a, b) && Cong(c, d)
    ensures Cong(a + c, b + d) && Cong(a - c, b - d)
  {
    hide Cong;
    var k := CongQuotient(a, b);
    var l := CongQuotient(c, d);
    CongByMultiple(a + c, b + d, k + l);
    CongByMultiple(a - c, b - d, k - l);
  }

  lemma CongMul(a: int, b: int, c: int, d: int)
    requires Cong(a, b) && Cong(c, d)
    ensures Cong(a * c, b * d)
  {
    hide Cong;
    var k := CongQuotient(a, b);
    var l := CongQuotient(c, d);
    ProductOfSums(b, d, k, l, P);
    CongByMultiple(a * c, b * d, k * d + b * l + k * l * P);
  }

  lemma ProductOfSums(b: int, d: int, k: int, l: int, p: int)
    ensures (b + p * k) * (d + p * l) == b * d + p * (k * d + b * l + k * l * p)
  {}

  function Pow(b: int, e: nat): int {
    if e == 0 then 1 else Product(b, Pow(b, e - 1))
  }

  lemma PowStep(b: int, e: nat)
    requires e > 0
    ensures Pow(b, e) == b * Pow(b, e - 1)
  {
    hide Product;
    ProductIs(b, Pow(b, e - 1));
  }

  lemma {:induction false} PowAdd(b: int, e: nat, f: nat)
    ensures Pow(b, e + f) == Pow(b, e) * Pow(b, f)
  {
    hide Product;
    if e != 0 {
      PowAdd(b, e - 1, f);
      PowStep(b, e);
      PowStep(b, e + f);
      assert b * (Pow(b, e - 1) * Pow(b, f)) == b * Pow(b, e - 1) * Pow(b, f);
    }
  }

  lemma {:induction false} PowMul(b: int, e: nat, f: nat)
    ensures Pow(Pow(b, e), f) == Pow(b, e * f)
  {
    if f != 0 {
      PowMul(b, e, f - 1);
      PowStep(Pow(b, e), f);
      PowAdd(b, e, e * (f - 1));
      assert e * f == e + e * (f - 1);
    }
  }

  lemma {:induction false} PowProduct(a: int, b: int, e: nat)
    ensures Pow(a * b, e) == Pow(a, e) * Pow(b, e)
  {
    if e != 0 {
      PowProduct(a, b, e - 1);
      PowStep(a * b, e);
      PowStep(a, e);
      PowStep(b, e);
      Interchange(a, b, Pow(a, e - 1), Pow(b, e - 1));
    }
  }

  lemma Interchange(a: int, b: int, c: int, d: int)
    ensures (a * b) * (c * d) == (a * c) * (b * d)
  {}

  lemma {:induction false} CongPow(a: int, b: int, e: nat)
    requires Cong(a, b)
    ensures Cong(Pow(a, e), Pow(b, e))
  {
    hide Cong;
    CongRefl(1);
    if e != 0 {
      CongPow(a, b, e - 1);
      PowStep(a, e);
      PowStep(b, e);
      CongMul(a, b, Pow(a, e - 1), Pow(b, e - 1));
    }
  }

  lemma CongRefl(a: int)
    ensures Cong(a, a)
  {
    hide Cong;
    CongByMultiple(a, a, 0);
  }

  lemma CongSym(a: int, b: int)
    requires Cong(a, b)
    ensures Cong(b, a)
  {
    hide Cong;
    var k := CongQuotient(a, b);
    CongByMultiple(b, a, -k);
  }

  /** A residue with a multiplicative inverse. */
  ghost predicate Unit(a: int) {
    exists w :: Cong(Product(a, w), 1)
  }

  lemma UnitIs(a: int) returns (w: int)
    requires Unit(a)
    ensures Cong(a * w, 1)
  {
    hide Cong, Product;
    w :| Cong(Product(a, w), 1);
    ProductIs(a, w);
  }

  /** The canonical inverse of a unit; 0 for anything else. */
  ghost function Inv(a: int): (w: int)
    ensures 0 <= w < P
    ensures Unit(a) ==> Cong(Product(a, w), 1)
  {
    if Unit(a) then
      var v :| Cong(Product(a, v), 1);
      ProductIs(a, v);
      ProductIs(a, Residue(v));
      InvReduced(a, v);
      Residue(v)
    else 0
  }

  lemma InvIs(a: int)
    requires Unit(a)
    ensures Cong(a * Inv(a), 1)
  {
    hide Cong, Product, Unit;
    ProductIs(a, Inv(a));
  }

  lemma InvReduced(a: int, v: int)
    requires Cong(a * v, 1)
    ensures Cong(a * Residue(v), 1)
  {
    hide Cong, Residue;
    CongRefl(a);
    CongMul(a, a, Residue(v), v);
    CongTrans(a * Residue(v), a * v, 1);
  }

  lemma UnitBy(a: int, w: int)
    requires Cong(a * w, 1)
    ensures Unit(a)
  {
    hide Cong, Product;
    ProductIs(a, w);
  }

  lemma UnitOne()
    ensures Unit(1)
  {
    hide Cong;
    CongRefl(1);
    UnitBy(1, 1);
  }

  lemma UnitCong(a: int, b: int)
    requires Unit(a) && Cong(a, b)
    ensures Unit(b)
  {
    hide Cong, Unit;
    var w := UnitIs(a);
    CongSym(a, b);
    CongRefl(w);
    CongMul(b, a, w, w);
    CongTrans(b * w, a * w, 1);
    UnitBy(b, w);
  }

  lemma UnitMul(a: int, b: int)
    requires Unit(a) && Unit(b)
    ensures Unit(a * b)
  {
    hide Cong, Unit;
    var v := UnitIs(a);
    var w := UnitIs(b);
    CongMul(a * v, 1, b * w, 1);
    assert (a * b) * (v * w) == (a * v) * (b * w);
    UnitBy(a * b, v * w);
  }

  /** Units cancel. */
  lemma Cancel(u: int, a: int, b: int)
    requires Unit(u) && Cong(a * u, b * u)
    ensures Cong(a, b)
  {
    hide Cong, Unit;
    var w := UnitIs(u);
    CongRefl(w);
    CongMul(a * u, b * u, w, w);
    CancelOne(u, w, a);
    CancelOne(u, w, b);
    CongSym(a * u * w, a);
    CongTrans(a, a * u * w, b * u * w);
    CongTrans(a, b * u * w, b);
  }

  lemma CancelOne(u: int, w: int, a: int)
    requires Cong(u * w, 1)
    ensures Cong(a * u * w, a)
  {
    hide Cong;
    CongRefl(a);
    CongMul(a, a, u * w, 1);
    assert a * (u * w) == a * u * w;
  }

  lemma CongScale(c: int, a: int, b: int)
    requires Cong(a, b)
    ensures Cong(c * a, c * b)
  {
    hide Cong;
    CongRefl(c);
    CongMul(c, c, a, b);
  }

  lemma CongNeg(a: int, b: int)
    requires Cong(a, b)
    ensures Cong(-a, -b)
  {
    hide Cong;
    var k := CongQuotient(a, b);
    CongByMultiple(-a, -b, -k);
  }

  lemma CongZero(a: int, b: int)
    ensures Cong(a, b) <==> Cong(a - b, 0)
  {
    hide Cong;
    CongAlike(a, b, a - b, 0, 0);
  }

  ghost predicate ZeroProduct(a: int, b: int) {
    Cong(Product(a, b), 0)
  }

  ghost predicate NoZeroDivisors() {
    forall a, b :: ZeroProduct(a, b) ==> Cong(a, 0) || Cong(b, 0)
  }

  ghost predicate Fermat(a: int) {
    !Cong(a, 0) ==> Cong(Pow(a, P - 1), 1)
  }

  ghost predicate FermatLittle() {
    forall a :: Fermat(a)
  }

  /**
   What is taken from number theory about p: it is prime, stated through the two consequences used here
   (no zero divisors, and Fermat's little theorem).
   */
  ghost predicate PrimeFacts() {
    NoZeroDivisors() && FermatLittle()
  }

  lemma ZeroFactor(a: int, b: int)
    requires PrimeFacts() && Cong(a * b, 0)
    ensures Cong(a, 0) || Cong(b, 0)
  {
    hide Cong, Product;
    ProductIs(a, b);
    assert ZeroProduct(a, b);
  }

  lemma FermatInverse(a: int)
    requires PrimeFacts() && !Cong(a, 0)
    ensures Cong(a * Pow(a, P - 2), 1)
  {
    hide NoZeroDivisors, Cong, Pow;
    assert Fermat(a);
    PowStep(a, P - 1);
  }

  lemma OneNotZero()
    ensures !Cong(1, 0)
  {
    hide Cong;
    CongMod(1, 0);
  }

  /** Under primality the units are exactly the non-zero residues. */
  lemma UnitIffNonZero(a: int)
    requires PrimeFacts()
    ensures Unit(a) <==> !Cong(a, 0)
  {
    hide PrimeFacts, Cong, Unit, Pow;
    if !Cong(a, 0) {
      FermatInverse(a);
      UnitBy(a, Pow(a, P - 2));
    } else if Unit(a) {
      var w := UnitIs(a);
      CongScale(w, a, 0);
      assert w * a == a * w;
      CongSym(a * w, 1);
      CongTrans(1, a * w, w * 0);
      OneNotZero();
    }
  }
}
