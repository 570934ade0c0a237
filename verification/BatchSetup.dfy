/** The scalars and points of a batch of signatures (ed25519-donna-batchverify.h). */
module BatchSetup {
  import opened Words
  import opened Bytes
  import opened PrimeField
  import opened Curve25519
  import opened Edwards
  import opened EdwardsFormulas
  import opened GroupElements
  import opened ScalarModM
  import opened ScalarBytes
  import opened ScalarBatch
  import opened PointCodec
  import opened BatchHeap
  import opened MultiScalar
  import opened Ed25519
  import Sha512

  // ---- the scalars of a batch ----

  /** The random factor of a signature. */
  function Random(rnd: seq<bytes>, i: nat): nat
    requires i < |rnd|
  {
    LeVal(rnd[i]) % L
  }

  /** r1 s1 + r2 s2 + ... of the first `n` signatures. */
  ghost function ScalarSum(rs: seq<bytes>, rnd: seq<bytes>, n: nat): int
    requires n <= |rs| && n <= |rnd| && forall i :: 0 <= i < |rs| ==> |rs[i]| == 64
  {
    if n == 0 then 0 else ScalarSum(rs, rnd, n - 1) + Product(LeVal(rs[n - 1][32..]), Random(rnd, n - 1))
  }

  /** The signatures of a batch: as many messages, keys, signatures and random values. */
  ghost predicate Batch(m: seq<bytes>, pk: seq<bytes>, rs: seq<bytes>, rnd: seq<bytes>) {
    && |m| == |pk| == |rs| == |rnd|
    && (forall i :: 0 <= i < |pk| ==> |pk[i]| == 32)
    && (forall i :: 0 <= i < |rs| ==> |rs[i]| == 64)
    && (forall i :: 0 <= i < |rnd| ==> |rnd[i]| == 16)
  }

  /** The coefficients: the sum of r s for the base point, r h for each key, r for each R. */
  ghost function Coefficients(m: seq<bytes>, pk: seq<bytes>, rs: seq<bytes>, rnd: seq<bytes>): (v: seq<int>)
    requires Batch(m, pk, rs, rnd)
    ensures |v| == 2 * |m| + 1
  {
    [ScalarSum(rs, rnd, |m|) % L]
    + seq(|m|, i requires 0 <= i < |m| => Product(Challenge(rs[i], pk[i], m[i]), Random(rnd, i)) % L)
    + seq(|m|, i requires 0 <= i < |m| => Random(rnd, i))
  }

  lemma FitsLimbs(s: Scalar)
    requires Limbs(s, 0x20000000)
    ensures Fits(s, 4) && Limbs(s, 0x100000000)
  {}

  /** Entry `i` of the scalars holds the value `x`, reduced. */
  ghost predicate Holds(s: seq<Scalar>, i: nat, x: int) {
    i < |s| && Limbs(s[i], 0x20000000) && SVal(s[i]) == x
  }

  method RandomScalars(h: Heap, rnd: seq<bytes>, b: nat)
    requires h.Sized() && b == |rnd| <= MAX_BATCH_SIZE && forall i :: 0 <= i < |rnd| ==> |rnd[i]| == 16
    modifies h.scalars
    ensures forall i :: 0 <= i < b ==> Holds(h.scalars[..], b + 1 + i, Random(rnd, i))
  {
    hide SVal, LeVal, Limbs;
    for i := 0 to b
      invariant forall j :: 0 <= j < i ==> Holds(h.scalars[..], b + 1 + j, Random(rnd, j))
    {
      var r := Expand256(rnd[i]);
      h.scalars[b + 1 + i] := r;
    }
  }

  /** The products r s go into the first entries; the random scalars stay. */
  method ProductScalars(h: Heap, rs: seq<bytes>, rnd: seq<bytes>, b: nat)
    requires h.Sized() && b == |rs| == |rnd| <= MAX_BATCH_SIZE && forall i :: 0 <= i < |rs| ==> |rs[i]| == 64
    requires forall i :: 0 <= i < b ==> Holds(h.scalars[..], b + 1 + i, Random(rnd, i))
    modifies h.scalars
    ensures forall i :: 0 <= i < b ==> Holds(h.scalars[..], b + 1 + i, Random(rnd, i))
    ensures forall j :: 0 <= j < b ==> Holds(h.scalars[..], j, Product(LeVal(rs[j][32..]) % L, Random(rnd, j)) % L)
  {
    hide SVal, LeVal, Limbs, Random, Product;
    for i := 0 to b
      invariant forall j :: 0 <= j < b ==> Holds(h.scalars[..], b + 1 + j, Random(rnd, j))
      invariant forall j :: 0 <= j < i ==> Holds(h.scalars[..], j, Product(LeVal(rs[j][32..]) % L, Random(rnd, j)) % L)
    {
      assert Holds(h.scalars[..], b + 1 + i, Random(rnd, i));
      h.scalars[i] := Expand256(rs[i][32..]);
      FitsLimbs(h.scalars[i]);
      FitsLimbs(h.scalars[b + 1 + i]);
      ProductIs(LeVal(rs[i][32..]) % L, Random(rnd, i));
      h.scalars[i] := Mul256(h.scalars[i], h.scalars[b + 1 + i]);
    }
  }

  /** The products are summed into entry 0. */
  method SumScalars(h: Heap, rs: seq<bytes>, rnd: seq<bytes>, b: nat)
    requires h.Sized() && 1 <= b == |rs| == |rnd| <= MAX_BATCH_SIZE && forall i :: 0 <= i < |rs| ==> |rs[i]| == 64
    requires forall j :: 0 <= j < b ==> Holds(h.scalars[..], j, Product(LeVal(rs[j][32..]) % L, Random(rnd, j)) % L)
    modifies h.scalars
    ensures h.scalars[..] == old(h.scalars[..])[0 := h.scalars[0]]
    ensures Holds(h.scalars[..], 0, ScalarSum(rs, rnd, b) % L)
  {
    hide SVal, LeVal, Limbs, ScalarSum, Random, Product;
    SumStart(rs, rnd);
    for i := 1 to b
      invariant h.scalars[..] == old(h.scalars[..])[0 := h.scalars[0]]
      invariant Holds(h.scalars[..], 0, ScalarSum(rs, rnd, i) % L)
    {
      assert Holds(old(h.scalars[..]), i, Product(LeVal(rs[i][32..]) % L, Random(rnd, i)) % L);
      assert h.scalars[i] == old(h.scalars[i]);
      FitsLimbs(h.scalars[0]);
      FitsLimbs(h.scalars[i]);
      DivideL(ScalarSum(rs, rnd, i));
      DivideL(Product(LeVal(rs[i][32..]) % L, Random(rnd, i)));
      SumNext(rs, rnd, i);
      h.scalars[0] := Add256(h.scalars[0], h.scalars[i]);
    }
  }

  /** The product with the reduced factor adds the same residue. */
  lemma AddProduct(total: int, s: int, r: int)
    ensures (total % L + Product(s % L, r) % L) % L == (total + Product(s, r)) % L
  {
    hide Product;
    ProductIs(s % L, r);
    ProductIs(s, r);
    DivideL(s);
    ScaleMultiple(r, s / L, s % L, s);
    AddReduced(total, r * (s % L), r * s, r * (s / L));
  }

  lemma SumStart(rs: seq<bytes>, rnd: seq<bytes>)
    requires |rs| == |rnd| > 0 && forall i :: 0 <= i < |rs| ==> |rs[i]| == 64
    ensures ScalarSum(rs, rnd, 1) % L == Product(LeVal(rs[0][32..]) % L, Random(rnd, 0)) % L
  {
    hide LeVal, Random, Product;
    var s, r := LeVal(rs[0][32..]), Random(rnd, 0);
    assert ScalarSum(rs, rnd, 1) == ScalarSum(rs, rnd, 0) + Product(s, r);
    AddProduct(0, s, r);
    ReducedTwice(Product(s % L, r));
  }

  lemma ReducedTwice(x: int)
    ensures x % L % L == x % L && 0 % L == 0
  {}

  lemma SumNext(rs: seq<bytes>, rnd: seq<bytes>, i: nat)
    requires i < |rs| == |rnd| && forall i :: 0 <= i < |rs| ==> |rs[i]| == 64
    ensures ScalarSum(rs, rnd, i + 1) % L
            == (ScalarSum(rs, rnd, i) % L + Product(LeVal(rs[i][32..]) % L, Random(rnd, i)) % L) % L
  {
    hide LeVal, Random, Product;
    AddProduct(ScalarSum(rs, rnd, i), LeVal(rs[i][32..]), Random(rnd, i));
  }

  /** r h for each key. */
  method KeyScalars(h: Heap, m: seq<bytes>, pk: seq<bytes>, rs: seq<bytes>, rnd: seq<bytes>, b: nat)
    requires h.Sized() && Batch(m, pk, rs, rnd) && b == |m| <= MAX_BATCH_SIZE
    requires forall i :: 0 <= i < b ==> Holds(h.scalars[..], b + 1 + i, Random(rnd, i))
    modifies h.scalars
    ensures h.scalars[0] == old(h.scalars[0])
    ensures forall i :: 0 <= i < b ==> Holds(h.scalars[..], b + 1 + i, Random(rnd, i))
    ensures forall i :: 0 <= i < b ==> Holds(h.scalars[..], i + 1, Product(Challenge(rs[i], pk[i], m[i]), Random(rnd, i)) % L)
  {
    hide SVal, LeVal, Limbs, Sha512.Hash, Random, Product;
    for i := 0 to b
      invariant h.scalars[0] == old(h.scalars[0])
      invariant forall j :: 0 <= j < b ==> Holds(h.scalars[..], b + 1 + j, Random(rnd, j))
      invariant forall j ::
                  0 <= j < i ==> Holds(h.scalars[..], j + 1, Product(Challenge(rs[j], pk[j], m[j]), Random(rnd, j)) % L)
    {
      assert Holds(h.scalars[..], b + 1 + i, Random(rnd, i));
      var hram := Hram(rs[i], pk[i], m[i]);
      h.scalars[i + 1] := Expand256(hram);
      FitsLimbs(h.scalars[i + 1]);
      FitsLimbs(h.scalars[b + 1 + i]);
      ProductIs(Challenge(rs[i], pk[i], m[i]), Random(rnd, i));
      h.scalars[i + 1] := Mul256(h.scalars[i + 1], h.scalars[b + 1 + i]);
    }
  }

  /** The scalars of a batch: the coefficients, in place, with the random ones below 2^128. */
  method SetupScalars(h: Heap, m: seq<bytes>, pk: seq<bytes>, rs: seq<bytes>, rnd: seq<bytes>, b: nat)
    requires h.Sized() && Batch(m, pk, rs, rnd) && 1 <= b == |m| <= MAX_BATCH_SIZE
    modifies h.scalars
    ensures AllFit(h.scalars[..], 2 * b + 1, 4)
    ensures Vals(h.scalars[..])[..2 * b + 1] == Coefficients(m, pk, rs, rnd)
    ensures forall i :: FirstPart(2 * b + 1) <= i < 2 * b + 1 ==> SVal(h.scalars[i]) < TWO128
  {
    hide SVal, LeVal, Limbs, ScalarSum, Random, Product, Challenge, Fits, Vals, AllFit, Coefficients;
    RandomScalars(h, rnd, b);
    ProductScalars(h, rs, rnd, b);
    SumScalars(h, rs, rnd, b);
    KeyScalars(h, m, pk, rs, rnd, b);
    Placed(h.scalars[..], m, pk, rs, rnd, b);
  }

  lemma Placed(s: seq<Scalar>, m: seq<bytes>, pk: seq<bytes>, rs: seq<bytes>, rnd: seq<bytes>, b: nat)
    requires Batch(m, pk, rs, rnd) && 1 <= b == |m| && 2 * b + 1 <= |s|
    requires Holds(s, 0, ScalarSum(rs, rnd, b) % L)
    requires forall i :: 0 <= i < b ==> Holds(s, b + 1 + i, Random(rnd, i))
    requires forall i :: 0 <= i < b ==> Holds(s, i + 1, Product(Challenge(rs[i], pk[i], m[i]), Random(rnd, i)) % L)
    ensures AllFit(s, 2 * b + 1, 4)
    ensures Vals(s)[..2 * b + 1] == Coefficients(m, pk, rs, rnd)
    ensures forall i :: FirstPart(2 * b + 1) <= i < 2 * b + 1 ==> SVal(s[i]) < TWO128
  {
    hide SVal, LeVal, Limbs, ScalarSum, Random, Product, Challenge, Fits;
    var v := Coefficients(m, pk, rs, rnd);
    forall i | 0 <= i < 2 * b + 1 ensures Fits(s[i], 4) && SVal(s[i]) == v[i] {
      if 1 <= i <= b {
        assert Holds(s, (i - 1) + 1, Product(Challenge(rs[i - 1], pk[i - 1], m[i - 1]), Random(rnd, i - 1)) % L);
      } else if b < i {
        assert Holds(s, b + 1 + (i - b - 1), Random(rnd, i - b - 1));
      }
      FitsLimbs(s[i]);
    }
    forall i | FirstPart(2 * b + 1) <= i < 2 * b + 1 ensures SVal(s[i]) < TWO128 {
      assert Holds(s, b + 1 + (i - b - 1), Random(rnd, i - b - 1));
      ShortRandom(rnd, i - b - 1);
    }
  }

  lemma ShortRandom(rnd: seq<bytes>, i: nat)
    requires i < |rnd| && |rnd[i]| == 16
    ensures Random(rnd, i) == LeVal(rnd[i]) < TWO128
  {
    hide LeVal, Pow256;
    LeValBound(rnd[i]);
    Pow256Of8();
    Pow256Add(8, 8);
    SmallerThanL(LeVal(rnd[i]));
  }

  lemma SmallerThanL(x: nat)
    requires x < TWO128
    ensures x % L == x
  {}

  // ---- the points of a batch ----

  /** The base point with Z = 1. */
  const BASEPOINT := Ge(
    Fe(0x00062d608f25d51a, 0x000412a4b4f6592a, 0x00075b7171a4b31d, 0x0001ff60527118fe, 0x000216936d3cd6e5),
    Fe(0x0006666666666658, 0x0004cccccccccccc, 0x0001999999999999, 0x0003333333333333, 0x0006666666666666),
    Fe(1, 0, 0, 0, 0),
    Fe(0x00068ab3a5b7dda3, 0x00000eea2a5eadbb, 0x0002af8df483c27e, 0x000332b375274732, 0x00067875f0fd78b7))

  lemma BasepointValues()
    ensures Val(BASEPOINT.x) == BASE.x && Val(BASEPOINT.y) == BASE.y && Val(BASEPOINT.z) == 1
    ensures Val(BASEPOINT.t) % P == BASE.x * BASE.y % P
    ensures Tight(BASEPOINT.x) && Tight(BASEPOINT.y) && Tight(BASEPOINT.z) && Tight(BASEPOINT.t)
  {}

  lemma BasepointStands()
    ensures Full(BASEPOINT, BASE)
  {
    hide Val, Cong, OnCurve, Unit, Tight, Projects, Extends;
    ProjectsIs(Val(BASEPOINT.x), Val(BASEPOINT.y), Val(BASEPOINT.z), BASE);
    ExtendsIs(Val(BASEPOINT.t), Val(BASEPOINT.z), BASE);
    BasepointValues();
    BaseOnCurve();
    UnitOne();
    CongMod(Val(BASEPOINT.t), BASE.x * BASE.y);
    CongRefl(BASE.x);
    CongRefl(BASE.y);
  }

  /** The base point, the negated keys and the negated R. */
  ghost predicate BatchPoints(a: seq<Point>, pk: seq<bytes>, rs: seq<bytes>) {
    && |a| == 2 * |pk| + 1 && |rs| == |pk| && a[0] == BASE
    && (forall i :: 0 <= i < |pk| ==> DecodesNegative(pk[i], a[i + 1]))
    && (forall i :: 0 <= i < |rs| ==> |rs[i]| == 64 && DecodesNegative(rs[i][..32], a[|pk| + i + 1]))
  }

  lemma PointsLength(a: seq<Point>, pk: seq<bytes>, rs: seq<bytes>)
    requires BatchPoints(a, pk, rs)
    ensures |a| == 2 * |pk| + 1
  {}

  method UnpackFrom(h: Heap, encodings: seq<bytes>, at: nat, ghost a0: seq<Point>) returns (ok: bool, ghost a: seq<Point>)
    requires h.Sized() && at + |encodings| <= HEAP_BATCH_SIZE && |a0| == at && Stand(h.points[..], a0, at)
    requires forall i :: 0 <= i < |encodings| ==> |encodings[i]| == 32
    modifies h.points
    ensures ok ==> |a| == at + |encodings| && a0 <= a && Stand(h.points[..], a, at + |encodings|)
    ensures ok ==> forall i :: 0 <= i < |encodings| ==> DecodesNegative(encodings[i], a[at + i])
    ensures PrimeFacts() ==> (ok <==> forall i :: 0 <= i < |encodings| ==> HasRoot(encodings[i]))
  {
    hide Full, DecodesNegative, HasRoot, PrimeFacts;
    a := a0;
    for i := 0 to |encodings|
      invariant |a| == at + i && a0 <= a && Stand(h.points[..], a, at + i)
      invariant forall j :: 0 <= j < i ==> DecodesNegative(encodings[j], a[at + j]) && HasRoot(encodings[j])
    {
      var good, p, c := UnpackNegative(encodings[i]);
      if !good {
        return false, a;
      }
      h.points[at + i] := p;
      a := a + [c];
    }
    ok := true;
  }

  /** Every key and every R of the batch has a point. */
  ghost predicate AllDecode(pk: seq<bytes>, rs: seq<bytes>)
    requires forall i :: 0 <= i < |rs| ==> |rs[i]| == 64
  {
    (forall i :: 0 <= i < |pk| ==> HasRoot(pk[i])) && forall i :: 0 <= i < |rs| ==> HasRoot(rs[i][..32])
  }

  /** The points of a batch, in place; it fails exactly when one of them cannot be decoded. */
  method SetupPoints(h: Heap, pk: seq<bytes>, rs: seq<bytes>, b: nat) returns (ok: bool, ghost a: seq<Point>)
    requires h.Sized() && b == |pk| == |rs| <= MAX_BATCH_SIZE
    requires forall i :: 0 <= i < |pk| ==> |pk[i]| == 32
    requires forall i :: 0 <= i < |rs| ==> |rs[i]| == 64
    modifies h.points
    ensures ok ==> BatchPoints(a, pk, rs) && Stand(h.points[..], a, 2 * b + 1)
    ensures PrimeFacts() ==> (ok <==> AllDecode(pk, rs))
  {
    hide Full, DecodesNegative, HasRoot, PrimeFacts;
    h.points[0] := BASEPOINT;
    BasepointStands();
    ghost var c;
    ok, c := UnpackFrom(h, pk, 1, [BASE]);
    a := c;
    if ok {
      var halves := seq(b, i requires 0 <= i < b => rs[i][..32]);
      ok, a := UnpackFrom(h, halves, b + 1, c);
      HalvesDecode(rs, halves);
      if ok {
        PointsOf(pk, rs, halves, c, a);
      }
    }
  }

  lemma HalvesDecode(rs: seq<bytes>, halves: seq<bytes>)
    requires |rs| == |halves| && forall i :: 0 <= i < |rs| ==> |rs[i]| == 64 && halves[i] == rs[i][..32]
    ensures (forall i :: 0 <= i < |halves| ==> HasRoot(halves[i])) <==> forall i :: 0 <= i < |rs| ==> HasRoot(rs[i][..32])
  {
    hide HasRoot;
  }

  lemma PointsOf(pk: seq<bytes>, rs: seq<bytes>, halves: seq<bytes>, c: seq<Point>, a: seq<Point>)
    requires |pk| == |rs| == |halves| && forall i :: 0 <= i < |rs| ==> |rs[i]| == 64 && halves[i] == rs[i][..32]
    requires |c| == |pk| + 1 && |a| == 2 * |pk| + 1 && c <= a && c[0] == BASE
    requires forall i :: 0 <= i < |pk| ==> DecodesNegative(pk[i], c[1 + i])
    requires forall i :: 0 <= i < |pk| ==> DecodesNegative(halves[i], a[|pk| + 1 + i])
    ensures BatchPoints(a, pk, rs)
  {
    hide DecodesNegative;
    forall i | 0 <= i < |pk| ensures DecodesNegative(pk[i], a[i + 1]) && DecodesNegative(rs[i][..32], a[|pk| + i + 1]) {
      assert DecodesNegative(pk[i], c[1 + i]) && a[1 + i] == c[1 + i];
      assert DecodesNegative(halves[i], a[|pk| + 1 + i]);
    }
  }
}
