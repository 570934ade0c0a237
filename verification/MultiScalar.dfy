/** Bos-Carter multi-scalar multiplication (ed25519-donna-batchverify.h). */
module MultiScalar {
  import opened Words
  import opened Edwards
  import opened GroupElements
  import opened CurveGroup
  import opened ScalarModM
  import opened ScalarBatch
  import opened ScalarMult
  import opened HeapOrder
  import opened BatchHeap
  import opened WeightedSums

  /** Full limbs stand for the first `n` points. */
  ghost predicate Stand(p: seq<Ge>, a: seq<Point>, n: nat) {
    n <= |p| && n <= |a| && forall i :: 0 <= i < n ==> Full(p[i], a[i])
  }

  lemma StandOnCurve(p: seq<Ge>, a: seq<Point>, n: nat)
    requires Stand(p, a, n)
    ensures OnCurveAll(a, n)
  {
    hide OnCurve, Full;
    forall i | 0 <= i < n ensures OnCurve(a[i]) {
      PartialOfFull(p[i], a[i]);
      FullOnCurve(p[i], a[i]);
    }
  }

  // ---- limb sizes ----

  lemma FitsBound(s: Scalar, k: nat)
    requires k <= 4 && Fits(s, 4)
    ensures Fits(s, k) <==> SVal(s) < Weight(k + 1)
    ensures SVal(s) >= 0
  {}

  /** When the largest scalar has lost a limb, every scalar has. */
  lemma LimbGone(s: seq<Scalar>, n: nat, limbsize: nat, m: nat)
    requires 1 <= limbsize <= 4 && AllFit(s, n, limbsize) && m < n && Limb(s[m], limbsize) == 0
    requires forall i :: 0 <= i < n ==> SVal(s[i]) <= SVal(s[m])
    ensures AllFit(s, n, limbsize - 1)
  {
    hide SVal, Weight;
    assert Fits(s[m], limbsize - 1) by { LimbDropped(s[m], limbsize); }
    FitsFour(s[m], limbsize);
    FitsBound(s[m], limbsize - 1);
    forall i | 0 <= i < n ensures Fits(s[i], limbsize - 1) {
      FitsFour(s[i], limbsize);
      FitsBound(s[i], limbsize - 1);
    }
  }

  lemma LimbDropped(s: Scalar, limbsize: nat)
    requires 1 <= limbsize <= 4 && Fits(s, limbsize) && Limb(s, limbsize) == 0
    ensures Fits(s, limbsize - 1)
  {}

  lemma FitsFour(s: Scalar, limbsize: nat)
    requires limbsize <= 4 && Fits(s, limbsize)
    ensures forall k: nat :: limbsize <= k <= 4 ==> Fits(s, k)
  {}

  /** A positive scalar never loses its last limb. */
  lemma LastLimb(s: Scalar)
    requires Fits(s, 0) && Limb(s, 0) == 0
    ensures SVal(s) == 0
  {}

  /** A scalar of at least 2^127 keeps limb 2. */
  lemma KeepsLimbTwo(s: Scalar, limbsize: nat)
    requires limbsize <= 4 && Fits(s, limbsize) && 2 * SVal(s) >= TWO128
    ensures limbsize >= 2 && (limbsize == 2 ==> Limb(s, 2) != 0)
  {}

  lemma Fits128(s: Scalar, limbsize: nat)
    requires Fits(s, 4) && SVal(s) < TWO128 && 2 <= limbsize <= 4
    ensures Fits(s, limbsize)
  {}

  // ---- one step ----

  method CarterStep(h: Heap, max1: nat, max2: nat, limbsize: nat, ghost a: seq<Point>) returns (ghost b: seq<Point>)
    requires CurveFacts() && h.Valid() && 3 <= h.size && h.size % 2 == 1 && limbsize <= 4
    requires AllFit(h.scalars[..], h.size, limbsize) && Stand(h.points[..], a, h.size)
    requires max1 == h.heap[0] && max1 < h.size && max2 < h.size && max1 != max2
    requires SVal(h.scalars[max2]) <= SVal(h.scalars[max1])
    modifies h.heap, h.scalars, h.points
    ensures h.Valid() && AllFit(h.scalars[..], h.size, limbsize)
    ensures b == a[max2 := Plus(a[max2], a[max1])] && Stand(h.points[..], b, h.size)
    ensures h.scalars[..] == old(h.scalars[..])[max1 := h.scalars[max1]]
    ensures SVal(h.scalars[max1]) == old(SVal(h.scalars[max1]) - SVal(h.scalars[max2]))
    ensures h.points[..] == old(h.points[..])[max2 := h.points[max2]]
  {
    hide SVal, Fits, Indices, Ordered, Sinking, Full, Plus, CurveFacts, OnCurve, Addable;
    StandOnCurve(h.points[..], a, h.size);
    ghost var v := Vals(h.scalars[..]);
    h.scalars[max1] := SubBatch(h.scalars[max1], h.scalars[max1], h.scalars[max2], limbsize);
    AlwaysAddable(a[max2], a[max1]);
    h.points[max2] := GeAdd(h.points[max2], h.points[max1], a[max2], a[max1]);
    b := a[max2 := Plus(a[max2], a[max1])];
    RootChanged(h.heap[..], v, Vals(h.scalars[..]), h.size);
    h.UpdatedRoot(limbsize);
  }

  // ---- what every iteration keeps ----

  /** The weighted sum and the common divisors of the first `n` coefficients are those of the start, as is what annihilates. */
  ghost predicate Conserved(v0: seq<int>, a0: seq<Point>, v: seq<int>, a: seq<Point>, n: nat) {
    && n <= |v0| == |v| && n <= |a0| == |a|
    && OnCurveAll(a, n)
    && Total(v, a, 0, n) == Total(v0, a0, 0, n)
    && (forall g :: CommonDivisor(g, v, n) <==> CommonDivisor(g, v0, n))
    && (forall k :: Annihilates(k, a0, n) ==> Annihilates(k, a, n))
  }

  ghost predicate Untouched(v0: seq<int>, a0: seq<Point>, v: seq<int>, a: seq<Point>, n: nat, count: nat) {
    && count <= |v0| == |v| && count <= |a0| == |a|
    && forall i :: n <= i < count ==> v[i] == v0[i] && a[i] == a0[i]
  }

  ghost predicate TwoNonZero(v: seq<int>, n: nat) {
    n <= |v| && exists i, j :: 0 <= i < n && 0 <= j < n && i != j && v[i] != 0 && v[j] != 0
  }

  ghost predicate TwoWide(v: seq<int>, n: nat) {
    n <= |v| && exists i, j :: 0 <= i < n && 0 <= j < n && i != j && v[i] + v[j] >= TWO128
  }

  /** Some common divisor of the first `n` coefficients has more than 128 bits. */
  ghost predicate BigDivisor(v: seq<int>, n: nat) {
    exists g :: g >= TWO128 && CommonDivisor(g, v, n)
  }

  lemma ConservedStep(v0: seq<int>, a0: seq<Point>, v: seq<int>, a: seq<Point>, n: nat, m1: nat, m2: nat)
    requires CurveFacts() && Conserved(v0, a0, v, a, n) && m1 < n && m2 < n && m1 != m2 && v[m2] >= 0
    ensures Conserved(v0, a0, v[m1 := v[m1] - v[m2]], a[m2 := Plus(a[m2], a[m1])], n)
  {
    hide CurveFacts, Plus, OnCurve, CommonDivisor, Total, Annihilates;
    CarterStepTotal(v, a, m1, m2, n);
    var w := v[m1 := v[m1] - v[m2]];
    forall k | Annihilates(k, a0, n) ensures Annihilates(k, a[m2 := Plus(a[m2], a[m1])], n) {
      AnnihilatesSum(k, a, n, m1, m2);
    }
    forall g ensures CommonDivisor(g, w, n) <==> CommonDivisor(g, v0, n) {
      CarterStepDivisors(g, v, m1, m2, n);
    }
  }

  lemma ConservedGrow(v0: seq<int>, a0: seq<Point>, v: seq<int>, a: seq<Point>, n: nat, count: nat)
    requires CurveFacts() && Conserved(v0, a0, v, a, n) && Untouched(v0, a0, v, a, n, count) && n <= count
    requires OnCurveAll(a0, count)
    ensures Conserved(v0, a0, v, a, count)
  {
    hide CurveFacts, Plus, OnCurve, Total, Mult;
    assert OnCurveAll(a, count);
    forall k | Annihilates(k, a0, count) ensures Annihilates(k, a, count) {
      assert Annihilates(k, a0, n);
    }
    TotalSplit(v, a, 0, n, count);
    TotalSplit(v0, a0, 0, n, count);
    TotalSame(v, a, v0, a0, n, count);
    forall g ensures CommonDivisor(g, v, count) <==> CommonDivisor(g, v0, count) {
      assert CommonDivisor(g, v, n) <==> CommonDivisor(g, v0, n);
      DivisorPrefix(g, v, n, count);
      DivisorPrefix(g, v0, n, count);
    }
  }

  lemma DivisorPrefix(g: int, v: seq<int>, n: nat, count: nat)
    requires n <= count <= |v|
    ensures CommonDivisor(g, v, count) <==> CommonDivisor(g, v, n) && forall i :: n <= i < count ==> v[i] % g == 0
  {}

  /** At the extension: two members are not zero and the largest is below 2^128, so no common divisor reaches it. */
  lemma Extendable(v0: seq<int>, a0: seq<Point>, v: seq<int>, a: seq<Point>, n: nat, m1: nat)
    requires Conserved(v0, a0, v, a, n) && m1 < n && 0 < v[m1] < TWO128
    ensures !BigDivisor(v0, n)
  {
    hide Total, OnCurve;
    forall g | g >= TWO128 ensures !CommonDivisor(g, v0, n) {
      assert CommonDivisor(g, v, n) <==> CommonDivisor(g, v0, n);
      SmallNotMultiple(v[m1], g);
    }
  }

  lemma SmallNotMultiple(x: int, g: int)
    requires 0 < x < g
    ensures x % g != 0
  {}

  /** At an exit without extension the one value left is such a divisor, unless nothing was to be done. */
  lemma NotExtendable(v0: seq<int>, a0: seq<Point>, v: seq<int>, a: seq<Point>, n: nat, m1: nat)
    requires Conserved(v0, a0, v, a, n) && m1 < n
    requires forall i :: 0 <= i < n && i != m1 ==> v[i] == 0
    requires v == v0 || TwoWide(v, n)
    ensures !(TwoNonZero(v0, n) && !BigDivisor(v0, n))
  {
    hide Total, OnCurve;
    if v != v0 {
      assert v[m1] >= TWO128;
      OnlyDivisor(v, n, m1);
      assert CommonDivisor(v[m1], v0, n);
    }
  }

  lemma OnlyDivisor(v: seq<int>, n: nat, m1: nat)
    requires n <= |v| && m1 < n && v[m1] > 0 && forall i :: 0 <= i < n && i != m1 ==> v[i] == 0
    ensures CommonDivisor(v[m1], v, n)
  {}

  /** The divisors of the value left are the common divisors of the start. */
  lemma LeftValue(v0: seq<int>, a0: seq<Point>, v: seq<int>, a: seq<Point>, n: nat, m1: nat, g: int)
    requires Conserved(v0, a0, v, a, n) && m1 < n && g > 0
    requires forall i :: 0 <= i < n && i != m1 ==> v[i] == 0
    ensures v[m1] % g == 0 <==> CommonDivisor(g, v0, n)
  {
    hide Total, OnCurve;
    assert CommonDivisor(g, v, n) <==> CommonDivisor(g, v0, n);
  }

  // ---- the loop ----

  /** The odd number of scalars the heap starts with: `((count + 1) / 2) | 1`. */
  function FirstPart(count: nat): nat {
    if (count + 1) / 2 % 2 == 0 then (count + 1) / 2 + 1 else (count + 1) / 2
  }

  /** Whether the short scalars join the heap before it is exhausted: what a caller can see beforehand. */
  ghost predicate AllTakePart(v: seq<int>, count: nat) {
    TwoNonZero(v, FirstPart(count)) && !BigDivisor(v, FirstPart(count))
  }

  /** How many scalars take part in a run. */
  ghost function Reached(v: seq<int>, count: nat): nat {
    if AllTakePart(v, count) then count else FirstPart(count)
  }

  ghost predicate LoopInvariant(v0: seq<int>, a0: seq<Point>, v: seq<int>, a: seq<Point>, size: nat, count: nat, extended: bool,
                                started: bool) {
    && size == (if extended then count else FirstPart(count))
    && Conserved(v0, a0, v, a, size) && Untouched(v0, a0, v, a, size, count)
    && (!started ==> v == v0 && !extended)
    && (started ==> TwoNonZero(v0, FirstPart(count)))
    && (started && !extended ==> TwoWide(v, size))
    && (extended ==> AllTakePart(v0, count))
  }

  lemma AtStart(v0: seq<int>, a0: seq<Point>, count: nat)
    requires 5 <= count <= |v0| && OnCurveAll(a0, count)
    ensures LoopInvariant(v0, a0, v0, a0, FirstPart(count), count, false, false)
  {
    hide Total, OnCurve, CommonDivisor;
  }

  /** The short scalars join. */
  lemma AtExtension(v0: seq<int>, a0: seq<Point>, v: seq<int>, a: seq<Point>, size: nat, count: nat, started: bool, m1: nat,
                    m2: nat)
    requires CurveFacts() && 5 <= count && OnCurveAll(a0, count)
    requires LoopInvariant(v0, a0, v, a, size, count, false, started)
    requires m1 < size && m2 < size && m1 != m2 && 0 < v[m2] <= v[m1] < TWO128
    ensures LoopInvariant(v0, a0, v, a, count, count, true, true)
  {
    hide CurveFacts, Conserved, OnCurve, BigDivisor;
    ConservedGrow(v0, a0, v, a, size, count);
    Extendable(v0, a0, v, a, size, m1);
    assert !started ==> TwoNonZero(v0, size);
  }

  lemma AtStep(v0: seq<int>, a0: seq<Point>, v: seq<int>, a: seq<Point>, size: nat, count: nat, extended: bool, started: bool,
               m1: nat, m2: nat)
    requires CurveFacts() && 5 <= count
    requires LoopInvariant(v0, a0, v, a, size, count, extended, started)
    requires m1 < size && m2 < size && m1 != m2 && 0 < v[m2] <= v[m1] && (extended || v[m1] >= TWO128)
    requires size <= count <= |v| && count <= |a|
    ensures LoopInvariant(v0, a0, v[m1 := v[m1] - v[m2]], a[m2 := Plus(a[m2], a[m1])], size, count, extended, true)
    ensures Sum(v[m1 := v[m1] - v[m2]], count) < Sum(v, count)
  {
    hide CurveFacts, Conserved, OnCurve, BigDivisor, Plus, Sum;
    ConservedStep(v0, a0, v, a, size, m1, m2);
    SumUpdate(v, count, m1, v[m1] - v[m2]);
    assert !started ==> TwoNonZero(v0, size);
    var w := v[m1 := v[m1] - v[m2]];
    assert w[m1] + w[m2] == v[m1];
  }

  lemma AtExit(v0: seq<int>, a0: seq<Point>, v: seq<int>, a: seq<Point>, size: nat, count: nat, extended: bool, started: bool,
               m1: nat)
    requires LoopInvariant(v0, a0, v, a, size, count, extended, started)
    requires m1 < size && forall i :: 0 <= i < size && i != m1 ==> v[i] == 0
    ensures size == Reached(v0, count)
  {
    hide Conserved, BigDivisor;
    if !extended {
      NotExtendable(v0, a0, v, a, size, m1);
    }
  }

  lemma RootWide(v: seq<int>, n: nat, m1: nat)
    requires TwoWide(v, n) && m1 < n && forall i :: 0 <= i < n ==> v[i] <= v[m1]
    ensures 2 * v[m1] >= TWO128
  {}

  /** The limb count follows the largest scalar down, and never below limb 2 while that is at least 2^127. */
  method NextLimbsize(h: Heap, max1: nat, limbsize: nat) returns (l: nat)
    requires h.Sized() && limbsize <= 4 && AllFit(h.scalars[..], h.size, limbsize) && max1 < h.size
    requires forall i :: 0 <= i < h.size ==> SVal(h.scalars[i]) <= SVal(h.scalars[max1])
    requires SVal(h.scalars[max1]) > 0
    ensures l <= 4 && AllFit(h.scalars[..], h.size, l)
    ensures limbsize == 4 || 2 * SVal(h.scalars[max1]) >= TWO128 ==> l >= 2
  {
    hide SVal, Fits, Limb;
    l := limbsize;
    if 2 * SVal(h.scalars[max1]) >= TWO128 {
      KeepsLimbTwo(h.scalars[max1], limbsize);
    }
    if Limb(h.scalars[max1], limbsize) == 0 {
      if limbsize == 0 {
        LastLimb(h.scalars[max1]);
      }
      LimbGone(h.scalars[..], h.size, limbsize, max1);
      l := l - 1;
    }
  }

  lemma ValsUpdate(s: seq<Scalar>, t: seq<Scalar>, i: nat)
    requires |s| == |t| && i < |s| && t == s[i := t[i]]
    ensures Vals(t) == Vals(s)[i := SVal(t[i])]
  {
    hide SVal;
  }

  lemma FitsUpdate(s: seq<Scalar>, t: seq<Scalar>, i: nat, size: nat, count: nat, limbsize: nat)
    requires |s| == |t| && i < size <= count <= |s| && t == s[i := t[i]] && limbsize <= 4
    requires AllFit(s, count, 4) && AllFit(t, size, limbsize)
    ensures AllFit(t, count, 4)
  {
    hide Fits;
    FitsFour(t[i], limbsize);
  }

  lemma StandUpdate(p: seq<Ge>, q: seq<Ge>, a: seq<Point>, b: seq<Point>, i: nat, size: nat, count: nat)
    requires i < size <= count <= |p| == |q| && q == p[i := q[i]] && count <= |a| == |b| && b == a[i := b[i]]
    requires Stand(p, a, count) && Stand(q, b, size)
    ensures Stand(q, b, count)
  {
    hide Full;
  }

  lemma StandLess(p: seq<Ge>, a: seq<Point>, size: nat, count: nat)
    requires Stand(p, a, count) && size <= count
    ensures Stand(p, a, size)
  {
    hide Full;
  }

  lemma JoinFit(s: seq<Scalar>, size: nat, count: nat, limbsize: nat)
    requires AllFit(s, size, limbsize) && AllFit(s, count, 4) && 2 <= limbsize <= 4
    requires forall i :: size <= i < count ==> SVal(s[i]) < TWO128
    ensures AllFit(s, count, limbsize)
  {
    hide Fits, SVal;
    forall i | size <= i < count ensures Fits(s[i], limbsize) {
      Fits128(s[i], limbsize);
    }
  }

  lemma NonNegative(s: Scalar)
    ensures SVal(s) >= 0
  {}

  /** The values at hand: two distinct members, the larger one the root. */
  ghost predicate Chosen(h: Heap, max1: nat, max2: nat)
    reads h, h.heap, h.scalars
  {
    && h.Sized() && max1 < h.size && max2 < h.size && max1 != max2 && max1 == h.heap[0]
    && (forall k :: 0 <= k < h.size ==> SVal(h.scalars[k]) <= SVal(h.scalars[max1]))
    && (forall k :: 0 <= k < h.size && k != max1 ==> SVal(h.scalars[k]) <= SVal(h.scalars[max2]))
  }

  /** The state inside an iteration, once the limb count is up to date. */
  ghost predicate Inside(h: Heap, v0: seq<int>, a0: seq<Point>, a: seq<Point>, count: nat, limbsize: nat, extended: bool,
                         started: bool)
    reads h, h.heap, h.scalars, h.points
  {
    && h.Valid() && limbsize <= 4 && h.size <= count <= HEAP_BATCH_SIZE && |a| == |a0|
    && h.size == (if extended then count else FirstPart(count))
    && AllFit(h.scalars[..], h.size, limbsize) && AllFit(h.scalars[..], count, 4)
    && Stand(h.points[..], a, count)
    && LoopInvariant(v0, a0, Vals(h.scalars[..]), a, h.size, count, extended, started)
    && (!extended ==> forall i :: h.size <= i < count ==> SVal(h.scalars[i]) < TWO128)
  }

  /** Brings in the short scalars once the largest has at most 128 bits. */
  method ExtendHeap(h: Heap, count: nat, m1: nat, m2: nat, limbsize: nat, ghost started: bool,
                    ghost v0: seq<int>, ghost a0: seq<Point>, ghost a: seq<Point>) returns (max1: nat, max2: nat)
    requires CurveFacts() && 5 <= count && count % 2 == 1 && OnCurveAll(a0, count)
    requires Inside(h, v0, a0, a, count, limbsize, false, started) && Chosen(h, m1, m2)
    requires 2 <= limbsize && 0 < SVal(h.scalars[m2]) && SVal(h.scalars[m1]) < TWO128
    modifies h`size, h.heap
    ensures Inside(h, v0, a0, a, count, limbsize, true, true) && Chosen(h, max1, max2)
    ensures SVal(h.scalars[max2]) > 0
  {
    hide SVal, Fits, CurveFacts, OnCurve, Indices, Ordered, LoopInvariant, AllFit, Stand, Vals;
    ValsAt(h.scalars[..], m1);
    ValsAt(h.scalars[..], m2);
    AtExtension(v0, a0, Vals(h.scalars[..]), a, h.size, count, started, m1, m2);
    JoinFit(h.scalars[..], h.size, count, limbsize);
    h.Extend(count);
    max1, max2 := h.GetTop2(limbsize);
  }

  lemma ValsAt(s: seq<Scalar>, i: nat)
    requires i < |s|
    ensures Vals(s)[i] == SVal(s[i])
  {}

  method Subtract(h: Heap, count: nat, max1: nat, max2: nat, limbsize: nat, ghost extended: bool, ghost started: bool,
                  ghost v0: seq<int>, ghost a0: seq<Point>, ghost a: seq<Point>) returns (ghost b: seq<Point>)
    requires CurveFacts() && 5 <= count && count % 2 == 1
    requires Inside(h, v0, a0, a, count, limbsize, extended, started) && Chosen(h, max1, max2)
    requires SVal(h.scalars[max2]) > 0 && (extended || SVal(h.scalars[max1]) >= TWO128)
    modifies h.heap, h.scalars, h.points
    ensures Inside(h, v0, a0, b, count, limbsize, extended, true)
    ensures 0 <= Sum(Vals(h.scalars[..]), count) < old(Sum(Vals(h.scalars[..]), count))
  {
    hide SVal, Fits, Full, Plus, CurveFacts, OnCurve, Indices, Ordered, LoopInvariant, AllFit, Stand, Vals, Sum;
    ghost var s, p := h.scalars[..], h.points[..];
    ghost var v := Vals(s);
    ValsAt(s, max1);
    ValsAt(s, max2);
    StandLess(p, a, h.size, count);
    StandLength(p, a, count);
    AtStep(v0, a0, v, a, h.size, count, extended, started, max1, max2);
    b := CarterStep(h, max1, max2, limbsize, a);
    ValsUpdate(s, h.scalars[..], max1);
    FitsUpdate(s, h.scalars[..], max1, h.size, count, limbsize);
    StandUpdate(p, h.points[..], a, b, max2, h.size, count);
    SumOfScalars(h.scalars[..], count);
  }

  lemma StandLength(p: seq<Ge>, a: seq<Point>, n: nat)
    requires Stand(p, a, n)
    ensures n <= |a| && n <= |p|
  {}

  lemma SumOfScalars(s: seq<Scalar>, n: nat)
    requires n <= |s|
    ensures Sum(Vals(s), n) >= 0
  {
    hide SVal;
    forall i | 0 <= i < |s| ensures Vals(s)[i] >= 0 {
      NonNegative(s[i]);
    }
    SumNonNegative(Vals(s), n);
  }

  lemma OddFirstPart(count: nat)
    requires count >= 5
    ensures 3 <= FirstPart(count) <= count && FirstPart(count) % 2 == 1
  {}

  /** One iteration, once the second largest scalar is known not to be zero. */
  method Round(h: Heap, count: nat, m1: nat, m2: nat, limbs: nat, ext: bool, ghost started: bool,
               ghost v0: seq<int>, ghost a0: seq<Point>, ghost a: seq<Point>)
    returns (limbsize: nat, extended: bool, ghost b: seq<Point>)
    requires CurveFacts() && 5 <= count && count % 2 == 1 && OnCurveAll(a0, count)
    requires Inside(h, v0, a0, a, count, limbs, ext, started) && Chosen(h, m1, m2)
    requires SVal(h.scalars[m2]) > 0 && (!started ==> limbs == 4)
    modifies h`size, h.heap, h.scalars, h.points
    ensures Inside(h, v0, a0, b, count, limbsize, extended, true)
    ensures 0 <= Sum(Vals(h.scalars[..]), count) < old(Sum(Vals(h.scalars[..]), count))
  {
    hide SVal, Fits, CurveFacts, OnCurve, Indices, Ordered, LoopInvariant, AllFit, Stand, Vals, Sum, FirstPart, Limb, TwoWide;
    var max1, max2 := m1, m2;
    extended := ext;
    ghost var going := started;
    LargeEnough(v0, a0, h.scalars[..], a, h.size, count, extended, started, max1);
    limbsize := NextLimbsize(h, max1, limbs);
    if !extended {
      Entries4(h.scalars[..], count, max1);
      var small := IsAtMost128Bits(h.scalars[max1]);
      if small {
        max1, max2 := ExtendHeap(h, count, max1, max2, limbsize, going, v0, a0, a);
        extended, going := true, true;
      }
    }
    b := Subtract(h, count, max1, max2, limbsize, extended, going, v0, a0, a);
  }

  /** The subtraction loop: it ends with one value left among the scalars that took part. */
  method Exhaust(h: Heap, count: nat, ghost a0: seq<Point>) returns (max1: nat, ghost a: seq<Point>)
    requires CurveFacts() && h.Sized() && 5 <= count <= HEAP_BATCH_SIZE && count % 2 == 1
    requires AllFit(h.scalars[..], count, 4) && Stand(h.points[..], a0, count)
    requires forall i :: FirstPart(count) <= i < count ==> SVal(h.scalars[i]) < TWO128
    modifies h, h.heap, h.scalars, h.points
    ensures h.Sized() && Stand(h.points[..], a, count) && AllFit(h.scalars[..], count, 4)
    ensures h.size == Reached(old(Vals(h.scalars[..])), count) && max1 < h.size <= count
    ensures Conserved(old(Vals(h.scalars[..])), a0, Vals(h.scalars[..]), a, h.size)
    ensures forall i :: 0 <= i < h.size && i != max1 ==> SVal(h.scalars[i]) == 0
  {
    hide SVal, Fits, CurveFacts, OnCurve, Indices, Ordered, LoopInvariant, AllFit, Stand, Vals, Sum, Reached, FirstPart, Limb,
         TwoWide, Conserved;
    ghost var v0 := Vals(h.scalars[..]);
    StandOnCurve(h.points[..], a0, count);
    AtStart(v0, a0, count);
    OddFirstPart(count);
    FitsLess(h.scalars[..], FirstPart(count), count);
    var limbsize: nat := 4;
    var extended := false;
    ghost var started := false;
    h.Build(FirstPart(count));
    var max2: nat;
    a := a0;
    while true
      invariant Inside(h, v0, a0, a, count, limbsize, extended, started)
      invariant !started ==> limbsize == 4
      decreases Sum(Vals(h.scalars[..]), count)
    {
      max1, max2 := h.GetTop2(limbsize);
      var done := IsZeroBatch(h.scalars[max2]);
      if done {
        break;
      }
      NonNegative(h.scalars[max2]);
      limbsize, extended, a := Round(h, count, max1, max2, limbsize, extended, started, v0, a0, a);
      started := true;
    }
    OthersZero(h.scalars[..], h.size, max1, max2);
    AtExit(v0, a0, Vals(h.scalars[..]), a, h.size, count, extended, started, max1);
    Carried(v0, a0, Vals(h.scalars[..]), a, h.size, count, extended, started);
  }

  /** Before the extension the root is at least 2^127, except in the first round. */
  lemma LargeEnough(v0: seq<int>, a0: seq<Point>, s: seq<Scalar>, a: seq<Point>, n: nat, count: nat, extended: bool,
                    started: bool, m1: nat)
    requires LoopInvariant(v0, a0, Vals(s), a, n, count, extended, started) && m1 < n <= |s|
    requires forall i :: 0 <= i < n ==> SVal(s[i]) <= SVal(s[m1])
    ensures started && !extended ==> 2 * SVal(s[m1]) >= TWO128
  {
    hide SVal, Conserved, AllTakePart;
    if started && !extended {
      RootWide(Vals(s), n, m1);
    }
  }

  lemma Entries4(s: seq<Scalar>, n: nat, i: nat)
    requires AllFit(s, n, 4) && i < n
    ensures Fits(s[i], 4)
  {}

  lemma OthersZero(s: seq<Scalar>, n: nat, m1: nat, m2: nat)
    requires n <= |s| && m1 < n && m2 < n && SVal(s[m2]) == 0
    requires forall k :: 0 <= k < n && k != m1 ==> SVal(s[k]) <= SVal(s[m2])
    ensures forall k :: 0 <= k < n && k != m1 ==> SVal(s[k]) == 0 && Vals(s)[k] == 0
  {
    hide SVal;
    forall k | 0 <= k < n && k != m1 ensures SVal(s[k]) == 0 {
      NonNegative(s[k]);
    }
  }

  lemma Carried(v0: seq<int>, a0: seq<Point>, v: seq<int>, a: seq<Point>, size: nat, count: nat, extended: bool, started: bool)
    requires LoopInvariant(v0, a0, v, a, size, count, extended, started)
    ensures Conserved(v0, a0, v, a, size)
  {
    hide Conserved;
  }

  lemma FitsLess(s: seq<Scalar>, n: nat, count: nat)
    requires AllFit(s, count, 4) && n <= count
    ensures AllFit(s, n, 4)
  {
    hide Fits;
  }
}
