/** Batch verification (ed25519-donna-batchverify.h). */
module BatchVerify {
  import opened Options
  import opened Bytes
  import opened PrimeField
  import opened Curve25519
  import opened Curve25519Bytes
  import opened Edwards
  import opened EdwardsFormulas
  import opened GroupElements
  import opened CurveGroup
  import opened ScalarModM
  import opened ScalarMult
  import opened PointCodec
  import opened BatchHeap
  import opened WeightedSums
  import opened MultiScalar
  import opened MultiScalarFinal
  import opened Ed25519
  import opened BatchSetup
  import opened BatchEquation

  // ---- the neutral test ----

  lemma NeutralCoordinates(x: int, y: int, z: int, a: Point)
    requires Projects(x, y, z, a) && OnCurve(a)
    ensures Cong(x, 0) && Cong(y, z) <==> a == NEUTRAL
  {
    hide Cong, Unit, Eqn, Projects;
    ProjectsIs(x, y, z, a);
    assert 0 * z == 0 && 1 * z == z;
    CongRefl(0);
    if Cong(x, 0) && Cong(y, z) {
      CongSym(x, a.x * z);
      CongTrans(a.x * z, x, 0);
      Cancel(z, a.x, 0);
      CongSym(y, a.y * z);
      CongTrans(a.y * z, y, z);
      Cancel(z, a.y, 1);
      Canonical01(a.x, a.y);
    }
  }

  lemma Canonical01(x: int, y: int)
    requires 0 <= x < P && 0 <= y < P && Cong(x, 0) && Cong(y, 1)
    ensures x == 0 && y == 1
  {
    hide Cong;
    CongMod(x, 0);
    CongMod(y, 1);
  }

  lemma TightBelow(f: Fe)
    requires Tight(f)
    ensures Below(f, 0x8000000000000000)
  {}

  method IsNeutral(p: Ge, ghost a: Point) returns (r: bool)
    requires Partial(p, a)
    ensures r == (a == NEUTRAL)
  {
    hide Val, Cong, LeVal, OnCurve, Tight, Below, Projects, Zeros;
    TightBelow(p.x);
    TightBelow(p.y);
    TightBelow(p.z);
    var x := Contract(p.x);
    var y := Contract(p.y);
    var z := Contract(p.z);
    ZeroBytes(x, Val(p.x));
    ContractUnique(p.y, p.z, y, z);
    NeutralCoordinates(Val(p.x), Val(p.y), Val(p.z), a);
    r := x == Zeros(32) && y == z;
  }

  // ---- one batch ----

  // Only the first `count` coefficients matter.

  lemma SameDivisor(g: int, w: seq<int>, count: nat, n: nat)
    requires n <= count <= |w|
    ensures CommonDivisor(g, w[..count], n) <==> CommonDivisor(g, w, n)
  {
    var v := w[..count];
    assert forall i :: 0 <= i < n ==> v[i] == w[i];
  }

  lemma SameBig(w: seq<int>, count: nat, n: nat)
    requires n <= count <= |w|
    ensures BigDivisor(w[..count], n) <==> BigDivisor(w, n)
  {
    hide CommonDivisor;
    forall g ensures CommonDivisor(g, w[..count], n) <==> CommonDivisor(g, w, n) {
      SameDivisor(g, w, count, n);
    }
  }

  lemma SameTwo(w: seq<int>, count: nat, n: nat)
    requires n <= count <= |w|
    ensures TwoNonZero(w[..count], n) <==> TwoNonZero(w, n)
  {
    var v := w[..count];
    assert forall i :: 0 <= i < n ==> v[i] == w[i];
  }

  lemma SameReached(w: seq<int>, count: nat)
    requires 5 <= count <= |w|
    ensures Reached(w, count) == Reached(w[..count], count) <= count
  {
    hide BigDivisor, TwoNonZero;
    SameBig(w, count, FirstPart(count));
    SameTwo(w, count, FirstPart(count));
  }

  lemma SameGcd(s: nat, w: seq<int>, count: nat, n: nat)
    requires n <= count <= |w| && Gcd(s, w, n)
    ensures Gcd(s, w[..count], n)
  {
    hide CommonDivisor;
    forall g | g > 0 ensures s % g == 0 <==> CommonDivisor(g, w[..count], n) {
      SameDivisor(g, w, count, n);
    }
  }

  lemma Prefix(w: seq<int>, count: nat, a: seq<Point>, s: nat, p: Point)
    requires 5 <= count <= |w| && |a| == count && Leaves(w, a, count, s, p)
    ensures Leaves(w[..count], a, count, s, p)
  {
    hide Total, Mult, OnCurve, Gcd, Reached, Inherits;
    SameReached(w, count);
    SameGcd(s, w, count, Reached(w, count));
    TotalSame(w, a, w[..count], a, 0, Reached(w, count));
  }

  /** Everything up to the neutral test; `decoded` tells whether all points could be unpacked. */
  method TryBatch(h: Heap, m: seq<bytes>, pk: seq<bytes>, rs: seq<bytes>, rnd: seq<bytes>)
    returns (decoded: bool, neutral: bool, ghost a: seq<Point>, ghost s: nat, ghost p: Point)
    requires CurveFacts() && h.Sized() && Batch(m, pk, rs, rnd) && 2 <= |m| <= MAX_BATCH_SIZE
    modifies h, h.heap, h.scalars, h.points
    ensures h.Sized()
    ensures decoded <==> AllDecode(pk, rs)
    ensures decoded ==> Run(m, pk, rs, rnd, a, s, p) && neutral == Neutral(s, p)
  {
    hide CurveFacts, PrimeFacts, Full, AllFit, Stand, Vals, Coefficients, BatchPoints, AllDecode, Total, Mult, Factor,
         FirstPart, SVal, OnCurve, Leaves, Taken, AllTakePart, Coprime;
    var b := |m|;
    neutral := false;
    s, p := 0, NEUTRAL;
    SetupScalars(h, m, pk, rs, rnd, b);
    ghost var w := Vals(h.scalars[..]);
    Facts();
    decoded, a := SetupPoints(h, pk, rs, b);
    if decoded {
      var r: Option<Ge>;
      r, s, p := MultiScalarmult(h, 2 * b + 1, a);
      PointsLength(a, pk, rs);
      EnoughScalars(w, a, 2 * b + 1, s, p);
      Prefix(w, 2 * b + 1, a, s, p);
      if r.Some? {
        PartialOfFull(r.value, Mult(Factor(s), p));
        neutral := IsNeutral(r.value, Mult(Factor(s), p));
      }
    }
  }

  lemma EnoughScalars(v: seq<int>, a: seq<Point>, count: nat, s: nat, p: Point)
    requires Leaves(v, a, count, s, p)
    ensures count <= |v|
  {
    hide Mult, OnCurve, Reached, Gcd, Inherits, Total;
  }

  // ---- all the signatures ----

  ghost predicate SomeInvalid(valid: seq<int>) {
    exists i :: 0 <= i < |valid| && valid[i] == 0
  }

  function Bit(b: bool): int {
    if b then 1 else 0
  }

  /** The single verifier on `n` signatures from `at` on: the fallback of a batch, and the remainder. */
  method OneByOne(sliding: seq<Niels>, m: seq<bytes>, pk: seq<bytes>, rs: seq<bytes>, at: nat, n: nat, valid: array<int>,
                  ret0: bv2)
    returns (ret: bv2)
    requires CurveFacts() && SlidingTable(sliding) && |m| == |pk| == |rs| == valid.Length && at + n <= |m|
    requires forall i :: 0 <= i < |pk| ==> |pk[i]| == 32
    requires forall i :: 0 <= i < |rs| ==> |rs[i]| == 64
    modifies valid
    ensures forall i :: 0 <= i < |m| && !(at <= i < at + n) ==> valid[i] == old(valid[i])
    ensures forall i :: at <= i < at + n ==> valid[i] == if Accepts(m[i], pk[i], rs[i]) then 1 else 0
    ensures ret & 1 == 1 <==> ret0 & 1 == 1 || SomeInvalid(valid[at..at + n])
    ensures ret & 2 == ret0 & 2
  {
    hide CurveFacts, SlidingTable, Accepts;
    ret := ret0;
    for i := 0 to n
      invariant forall j :: 0 <= j < |m| && !(at <= j < at + i) ==> valid[j] == old(valid[j])
      invariant forall j :: at <= j < at + i ==> valid[j] == if Accepts(m[j], pk[j], rs[j]) then 1 else 0
      invariant ret & 1 == 1 <==> ret0 & 1 == 1 || SomeInvalid(valid[at..at + i])
      invariant ret & 2 == ret0 & 2
    {
      ghost var before := valid[at..at + i];
      var ok := SignOpen(sliding, m[at + i], pk[at + i], rs[at + i]);
      valid[at + i] := if ok then 1 else 0;
      assert valid[at..at + i + 1] == before + [valid[at + i]];
      OneMore(before, valid[at + i]);
      Flags(ret, ok);
      ret := ret | (if ok then 0 else 1);
    }
  }

  lemma OneMore(v: seq<int>, x: int)
    ensures SomeInvalid(v + [x]) <==> SomeInvalid(v) || x == 0
  {
    if SomeInvalid(v) {
      var i :| 0 <= i < |v| && v[i] == 0;
      assert (v + [x])[i] == 0;
    }
    assert (v + [x])[|v|] == x;
  }

  /** The two flags of the result are set independently. */
  lemma Flags(ret: bv2, ok: bool)
    ensures (ret | (if ok then 0 else 1)) & 1 == 1 <==> ret & 1 == 1 || !ok
    ensures (ret | (if ok then 0 else 1)) & 2 == ret & 2
    ensures (ret | 2) & 1 == ret & 1 && (ret | 2) & 2 == 2
  {}

  lemma Joined(before: seq<int>, valid: seq<int>, o: nat, e: nat)
    requires |before| == |valid| && o <= e <= |valid| && forall i :: 0 <= i < o ==> valid[i] == before[i]
    ensures SomeInvalid(valid[..e]) <==> SomeInvalid(before[..o]) || SomeInvalid(valid[o..e])
  {
    if SomeInvalid(before[..o]) {
      var i :| 0 <= i < o && before[..o][i] == 0;
      assert valid[..e][i] == 0;
    }
    if SomeInvalid(valid[o..e]) {
      var i :| 0 <= i < e - o && valid[o..e][i] == 0;
      assert valid[..e][o + i] == 0;
    }
    if SomeInvalid(valid[..e]) {
      var i :| 0 <= i < e && valid[..e][i] == 0;
      if i < o {
        assert before[..o][i] == 0;
      } else {
        assert valid[o..e][i - o] == 0;
      }
    }
  }

  /** The verdict on the signatures from `o` up to `e`. */
  ghost predicate ExplainsPart(m: seq<bytes>, pk: seq<bytes>, rs: seq<bytes>, rnd: seq<bytes>, o: nat, e: nat, verdict: Verdict)
    requires Batch(m, pk, rs, rnd) && o <= e <= |m|
  {
    Explains(m[o..e], pk[o..e], rs[o..e], rnd[o..e], verdict)
  }

  ghost predicate GoodPart(m: seq<bytes>, pk: seq<bytes>, rs: seq<bytes>, rnd: seq<bytes>, o: nat, e: nat)
    requires Batch(m, pk, rs, rnd) && o <= e <= |m|
  {
    Good(m[o..e], pk[o..e], rs[o..e], rnd[o..e])
  }

  /**
   * One turn of the batch loop. A batch that passes changes nothing; any other is judged one by one, and sets the
   * second flag if it could be decoded. A good batch passes.
   */
  method DoBatch(h: Heap, sliding: seq<Niels>, m: seq<bytes>, pk: seq<bytes>, rs: seq<bytes>, rnd: seq<bytes>,
                 at: nat, b: nat, valid: array<int>, ret0: bv2) returns (ret: bv2, ghost verdict: Verdict)
    requires CurveFacts() && SlidingTable(sliding) && h.Sized() && Batch(m, pk, rs, rnd) && valid.Length == |m|
    requires at + b <= |m| && 4 <= b <= MAX_BATCH_SIZE
    requires forall i :: at <= i < at + b ==> valid[i] == 1
    modifies h, h.heap, h.scalars, h.points, valid
    ensures h.Sized()
    ensures ExplainsPart(m, pk, rs, rnd, at, at + b, verdict)
    ensures BaseOrder() && PrimeOrder() && GoodPart(m, pk, rs, rnd, at, at + b) ==> verdict.Passed?
    ensures forall i :: 0 <= i < |m| && !(at <= i < at + b) ==> valid[i] == old(valid[i])
    ensures forall i :: at <= i < at + b ==> valid[i] == Bit(verdict.Passed? || Accepts(m[i], pk[i], rs[i]))
    ensures ret & 1 == 1 <==> ret0 & 1 == 1 || SomeInvalid(valid[at..at + b])
    ensures ret & 2 == 2 <==> ret0 & 2 == 2 || verdict.Failed?
    ensures verdict.Passed? ==> ret == ret0
  {
    hide CurveFacts, SlidingTable, Accepts, BaseOrder, PrimeOrder, Good, AllDecode, Run, Neutral;
    ret := ret0;
    ghost var m1, pk1, rs1, rnd1 := m[at..at + b], pk[at..at + b], rs[at..at + b], rnd[at..at + b];
    var decoded, neutral;
    ghost var a, s, p;
    decoded, neutral, a, s, p := TryBatch(h, m[at..at + b], pk[at..at + b], rs[at..at + b], rnd[at..at + b]);
    verdict := if !decoded then Undecodable else if neutral then Passed else Failed;
    assert Explains(m1, pk1, rs1, rnd1, verdict);
    if BaseOrder() && PrimeOrder() && Good(m1, pk1, rs1, rnd1) {
      GoodPasses(m1, pk1, rs1, rnd1, verdict);
    }
    if !decoded || !neutral {
      if decoded {
        Flags(ret, true);
        ret := ret | 2;
      }
      ret := OneByOne(sliding, m, pk, rs, at, b, valid, ret);
    }
  }

  /** Where batch `k` of `num` signatures starts and ends. */
  function Start(k: nat): nat {
    64 * k
  }

  function StartAt(k: nat, num: nat): nat {
    if Start(k) < num then Start(k) else num
  }

  function End(k: nat, num: nat): nat {
    StartAt(k + 1, num)
  }

  /** How many batches are tried: the last three signatures at most are left over. */
  function BatchCount(num: nat): (n: nat)
    ensures forall k :: 0 <= k < n ==> Start(k) + 3 < num
  {
    num / 64 + if num % 64 > 3 then 1 else 0
  }

  /** Signature `i` is reported valid: it is accepted on its own, or its batch passed. */
  ghost predicate Reported(m: seq<bytes>, pk: seq<bytes>, rs: seq<bytes>, verdicts: seq<Verdict>, i: nat)
    requires i < |m| == |pk| == |rs|
  {
    Accepts(m[i], pk[i], rs[i]) || (i / 64 < |verdicts| && verdicts[i / 64].Passed?)
  }

  /** Each verdict is that of its batch, and a good batch passed. */
  ghost predicate Explained(m: seq<bytes>, pk: seq<bytes>, rs: seq<bytes>, rnd: seq<bytes>, verdicts: seq<Verdict>, k: nat)
    requires Batch(m, pk, rs, rnd) && k < |verdicts| && Start(k) <= |m|
  {
    && ExplainsPart(m, pk, rs, rnd, Start(k), End(k, |m|), verdicts[k])
    && (BaseOrder() && PrimeOrder() && GoodPart(m, pk, rs, rnd, Start(k), End(k, |m|)) ==> verdicts[k].Passed?)
  }

  /** All signatures are accepted and every batch is good. */
  ghost predicate AllGood(m: seq<bytes>, pk: seq<bytes>, rs: seq<bytes>, rnd: seq<bytes>)
    requires Batch(m, pk, rs, rnd)
  {
    && BaseOrder() && PrimeOrder() && AllAccepted(m, pk, rs)
    && forall k :: 0 <= k < BatchCount(|m|) ==> GoodPart(m, pk, rs, rnd, Start(k), End(k, |m|))
  }

  /**
   * All signatures: reported valid exactly when accepted on their own or in a batch that passed. The first flag of the
   * result tells whether any was reported invalid, the second whether any batch was decoded and failed; the result is
   * 0 when all signatures are accepted and all batches good.
   */
  method SignOpenBatch(sliding: seq<Niels>, m: seq<bytes>, pk: seq<bytes>, rs: seq<bytes>, rnd: seq<bytes>, valid: array<int>)
    returns (ret: bv2, ghost verdicts: seq<Verdict>)
    requires CurveFacts() && SlidingTable(sliding) && Batch(m, pk, rs, rnd) && valid.Length == |m|
    modifies valid
    ensures |verdicts| == |m| / 64 + (if |m| % 64 > 3 then 1 else 0) == BatchCount(|m|)
    ensures forall k :: 0 <= k < |verdicts| ==> Explained(m, pk, rs, rnd, verdicts, k)
    ensures forall i :: 0 <= i < |m| ==> valid[i] == Bit(Reported(m, pk, rs, verdicts, i))
    ensures ret & 1 == 1 <==> SomeInvalid(valid[..])
    ensures ret & 2 == 2 <==> Failed in verdicts
    ensures AllGood(m, pk, rs, rnd) ==> ret == 0
  {
    hide CurveFacts, SlidingTable, Accepts, ExplainsPart, GoodPart, SomeInvalid, BaseOrder, PrimeOrder, BatchCount, Reported,
         Explained, AllGood, SoFar;
    var num := |m|;
    ret := 0;
    for i := 0 to num
      invariant forall j :: 0 <= j < i ==> valid[j] == 1
    {
      valid[i] := 1;
    }
    var h := new Heap();
    var at: nat := 0;
    verdicts := [];
    NoneYet(m, pk, rs, rnd, valid[..]);
    while num - at > 3
      invariant at <= num && at == StartAt(|verdicts|, num)
      invariant |verdicts| > 0 ==> Start(|verdicts| - 1) + 3 < num
      invariant h.Sized() && fresh(h) && fresh(h.heap) && fresh(h.scalars) && fresh(h.points)
      invariant SoFar(m, pk, rs, rnd, valid[..], verdicts, at)
      invariant forall i :: at <= i < num ==> valid[i] == 1
      invariant ret & 1 == 1 <==> SomeInvalid(valid[..at])
      invariant ret & 2 == 2 <==> Failed in verdicts
    {
      var b := if num - at > MAX_BATCH_SIZE then MAX_BATCH_SIZE else num - at;
      ghost var before := valid[..];
      ghost var verdict;
      ret, verdict := DoBatch(h, sliding, m, pk, rs, rnd, at, b, valid, ret);
      OneMoreBatch(m, pk, rs, rnd, before, valid[..], verdicts, verdict, at, at + b);
      Joined(before, valid[..], at, at + b);
      verdicts := verdicts + [verdict];
      at := at + b;
    }
    CountIs(num, |verdicts|);
    CountOf(num);
    ghost var before := valid[..];
    ret := OneByOne(sliding, m, pk, rs, at, num - at, valid, ret);
    LastOnes(m, pk, rs, rnd, before, valid[..], verdicts, at);
    Joined(before, valid[..], at, num);
    assert valid[..num] == valid[..];
    if AllGood(m, pk, rs, rnd) {
      NothingFailed(m, pk, rs, rnd, verdicts);
      NothingInvalid(m, pk, rs, rnd, verdicts, valid[..]);
      NoFlags(ret);
    }
  }

  /** What is known of the signatures before `at`: one verdict for each batch, and every one reported accordingly. */
  ghost predicate SoFar(m: seq<bytes>, pk: seq<bytes>, rs: seq<bytes>, rnd: seq<bytes>, valid: seq<int>, verdicts: seq<Verdict>,
                        at: nat)
    requires Batch(m, pk, rs, rnd) && |valid| == |m|
  {
    && at <= |m|
    && (forall k :: 0 <= k < |verdicts| ==> Start(k) <= |m| && Explained(m, pk, rs, rnd, verdicts, k))
    && (forall i :: 0 <= i < at ==> valid[i] == Bit(Reported(m, pk, rs, verdicts, i)))
  }

  lemma NoneYet(m: seq<bytes>, pk: seq<bytes>, rs: seq<bytes>, rnd: seq<bytes>, valid: seq<int>)
    requires Batch(m, pk, rs, rnd) && |valid| == |m|
    ensures SoFar(m, pk, rs, rnd, valid, [], 0) && !SomeInvalid(valid[..0])
  {}

  /** One more batch, from `o` up to `e`. */
  lemma OneMoreBatch(m: seq<bytes>, pk: seq<bytes>, rs: seq<bytes>, rnd: seq<bytes>, before: seq<int>, valid: seq<int>,
                     verdicts: seq<Verdict>, verdict: Verdict, o: nat, e: nat)
    requires Batch(m, pk, rs, rnd) && |before| == |valid| == |m| && SoFar(m, pk, rs, rnd, before, verdicts, o)
    requires o == Start(|verdicts|) < e == End(|verdicts|, |m|) <= |m|
    requires ExplainsPart(m, pk, rs, rnd, o, e, verdict)
    requires BaseOrder() && PrimeOrder() && GoodPart(m, pk, rs, rnd, o, e) ==> verdict.Passed?
    requires forall i :: 0 <= i < |m| && !(o <= i < e) ==> valid[i] == before[i]
    requires forall i :: o <= i < e ==> valid[i] == Bit(verdict.Passed? || Accepts(m[i], pk[i], rs[i]))
    ensures SoFar(m, pk, rs, rnd, valid, verdicts + [verdict], e)
  {
    hide ExplainsPart, GoodPart, BaseOrder, PrimeOrder, Accepts, Reported, Explained;
    MoreVerdicts(m, pk, rs, rnd, verdicts, verdict);
    forall i | 0 <= i < e ensures valid[i] == Bit(Reported(m, pk, rs, verdicts + [verdict], i)) {
      if i < o {
        StillReported(m, pk, rs, verdicts, verdict, i);
      } else {
        NowReported(m, pk, rs, verdicts, verdict, i);
      }
    }
  }

  /** The signatures that are left over. */
  lemma LastOnes(m: seq<bytes>, pk: seq<bytes>, rs: seq<bytes>, rnd: seq<bytes>, before: seq<int>, valid: seq<int>,
                 verdicts: seq<Verdict>, at: nat)
    requires Batch(m, pk, rs, rnd) && |before| == |valid| == |m| && SoFar(m, pk, rs, rnd, before, verdicts, at)
    requires at == StartAt(|verdicts|, |m|)
    requires forall i :: 0 <= i < at ==> valid[i] == before[i]
    requires forall i :: at <= i < |m| ==> valid[i] == if Accepts(m[i], pk[i], rs[i]) then 1 else 0
    ensures forall k :: 0 <= k < |verdicts| ==> Start(k) <= |m| && Explained(m, pk, rs, rnd, verdicts, k)
    ensures forall i :: 0 <= i < |m| ==> valid[i] == Bit(Reported(m, pk, rs, verdicts, i))
  {
    hide Accepts, Reported, Explained;
    forall i | at <= i < |m| ensures valid[i] == Bit(Reported(m, pk, rs, verdicts, i)) {
      LeftAlone(m, pk, rs, verdicts, i);
    }
  }

  lemma NoFlags(ret: bv2)
    requires ret & 1 != 1 && ret & 2 != 2
    ensures ret == 0
  {}

  lemma CountOf(num: nat)
    ensures BatchCount(num) == num / 64 + if num % 64 > 3 then 1 else 0
  {}

  lemma CountIs(num: nat, k: nat)
    requires k > 0 ==> Start(k - 1) + 3 < num
    requires num <= Start(k) + 3
    ensures BatchCount(num) == k
  {}

  /** What was explained stays so, and the new verdict is explained by its batch. */
  lemma MoreVerdicts(m: seq<bytes>, pk: seq<bytes>, rs: seq<bytes>, rnd: seq<bytes>, verdicts: seq<Verdict>, verdict: Verdict)
    requires Batch(m, pk, rs, rnd) && Start(|verdicts|) <= |m|
    requires forall k :: 0 <= k < |verdicts| ==> Start(k) <= |m| && Explained(m, pk, rs, rnd, verdicts, k)
    requires ExplainsPart(m, pk, rs, rnd, Start(|verdicts|), End(|verdicts|, |m|), verdict)
    requires BaseOrder() && PrimeOrder() && GoodPart(m, pk, rs, rnd, Start(|verdicts|), End(|verdicts|, |m|))
             ==> verdict.Passed?
    ensures var w := verdicts + [verdict]; forall k :: 0 <= k < |w| ==> Start(k) <= |m| && Explained(m, pk, rs, rnd, w, k)
  {
    hide ExplainsPart, GoodPart, BaseOrder, PrimeOrder;
    var w := verdicts + [verdict];
    forall k | 0 <= k < |w| ensures Start(k) <= |m| && Explained(m, pk, rs, rnd, w, k) {
      if k < |verdicts| {
        assert Explained(m, pk, rs, rnd, verdicts, k);
      }
    }
  }

  lemma StillReported(m: seq<bytes>, pk: seq<bytes>, rs: seq<bytes>, verdicts: seq<Verdict>, verdict: Verdict, i: nat)
    requires i < |m| == |pk| == |rs| && i < Start(|verdicts|)
    ensures Reported(m, pk, rs, verdicts + [verdict], i) == Reported(m, pk, rs, verdicts, i)
  {
    hide Accepts;
  }

  lemma NowReported(m: seq<bytes>, pk: seq<bytes>, rs: seq<bytes>, verdicts: seq<Verdict>, verdict: Verdict, i: nat)
    requires i < |m| == |pk| == |rs| && Start(|verdicts|) <= i < Start(|verdicts| + 1)
    ensures Reported(m, pk, rs, verdicts + [verdict], i) == (verdict.Passed? || Accepts(m[i], pk[i], rs[i]))
  {
    hide Accepts;
  }

  lemma LeftAlone(m: seq<bytes>, pk: seq<bytes>, rs: seq<bytes>, verdicts: seq<Verdict>, i: nat)
    requires i < |m| == |pk| == |rs| && Start(|verdicts|) <= i
    ensures Reported(m, pk, rs, verdicts, i) == Accepts(m[i], pk[i], rs[i])
  {
    hide Accepts;
  }

  lemma NothingFailed(m: seq<bytes>, pk: seq<bytes>, rs: seq<bytes>, rnd: seq<bytes>, verdicts: seq<Verdict>)
    requires Batch(m, pk, rs, rnd) && AllGood(m, pk, rs, rnd) && |verdicts| == BatchCount(|m|)
    requires forall k :: 0 <= k < |verdicts| ==> Explained(m, pk, rs, rnd, verdicts, k)
    ensures Failed !in verdicts
  {
    hide ExplainsPart, GoodPart, BaseOrder, PrimeOrder, AllAccepted, BatchCount;
    forall k | 0 <= k < |verdicts| ensures verdicts[k].Passed? {
      assert Explained(m, pk, rs, rnd, verdicts, k);
    }
  }

  lemma NothingInvalid(m: seq<bytes>, pk: seq<bytes>, rs: seq<bytes>, rnd: seq<bytes>, verdicts: seq<Verdict>, valid: seq<int>)
    requires Batch(m, pk, rs, rnd) && AllGood(m, pk, rs, rnd) && |valid| == |m|
    requires forall i :: 0 <= i < |m| ==> valid[i] == Bit(Reported(m, pk, rs, verdicts, i))
    ensures !SomeInvalid(valid)
  {
    hide GoodPart, BaseOrder, PrimeOrder, Accepts;
  }
}
