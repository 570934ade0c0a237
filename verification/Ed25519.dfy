/** Key derivation, signing and verification (ed25519.c). */
module Ed25519 {
  import opened Words
  import opened Bytes
  import opened PrimeField
  import opened Curve25519
  import opened Curve25519Bytes
  import opened Edwards
  import opened GroupElements
  import opened CurveGroup
  import opened ScalarModM
  import opened ScalarBytes
  import opened ScalarMult
  import opened Window4
  import opened FixedBase
  import opened PointCodec
  import Sha512

  /** The multiples of L annihilate the point. */
  ghost predicate OfOrderL(a: Point) {
    forall n :: n % L == 0 ==> Mult(n, a) == NEUTRAL
  }

  ghost predicate BaseOrder() {
    OfOrderL(BASE)
  }

  /** The two moduli, as RFC 8032 gives them. */
  lemma Moduli()
    ensures P == TWO255 - 19 && 16 * L == TWO256 + 16 * 27742317777372353535851937790883648493
  {}

  /** The base point is the only curve point with 5 y = 4 and an even x. */
  lemma BaseDetermined(c: Point)
    requires PrimeFacts() && OnCurve(c)
    ensures c == BASE <==> Cong(5 * c.y, 4) && c.x % 2 == 0
  {
    hide Cong, Eqn, PrimeFacts, Unit;
    BaseOnCurve();
    CongByMultiple(5 * BASE.y, 4, 4);
    if Cong(5 * c.y, 4) && c.x % 2 == 0 {
      CongByMultiple(5 * ((P + 1) / 5), 1, 1);
      UnitBy(5, (P + 1) / 5);
      CongSym(5 * BASE.y, 4);
      CongTrans(c.y * 5, 4, BASE.y * 5);
      Cancel(5, c.y, BASE.y);
      CanonicalUnique(c.y, BASE.y);
      SameY(BASE.x, c.x, BASE.y);
      SameSign(BASE.x, c.x);
    }
  }

  function Sixes(n: nat): (s: bytes)
    ensures |s| == n
  {
    seq(n, _ => 0x66)
  }

  lemma {:induction false} SixesValue(n: nat)
    ensures 5 * LeVal(Sixes(n)) == 2 * (Pow256(n) - 1)
  {
    if n > 0 {
      SixesValue(n - 1);
      assert Sixes(n)[1..] == Sixes(n - 1);
    }
  }

  /** The encoding of the base point, as RFC 8032 gives it, and what it decodes to. */
  lemma BaseEncoding()
    ensures Encodes([0x58] + Sixes(31), BASE) && DecodesNegative([0x58] + Sixes(31), Minus(BASE))
  {
    hide OnCurve, LeVal, Minus, DecodesNegative, Sixes, Pow256;
    var b: bytes := [0x58] + Sixes(31);
    LeValAppend([0x58], Sixes(31));
    Singleton(0x58);
    assert Pow256(1) == 256 by { Pow256Step(0); PowNone(); }
    SixesValue(31);
    Pow256Of31();
    BaseOnCurve();
    DecodesMinus(b, BASE);
  }

  // ---- what the values mean ----

  /** Bit operations of the key clamp, on byte values. */
  function Clamp(h: bytes): (e: bytes)
    requires |h| == 64
    ensures |e| == 64
  {
    h[0 := h[0] - h[0] % 8][31 := h[31] % 64 + 64]
  }

  const TWO251 := 0x800000000000000000000000000000000000000000000000000000000000000
  const TWO254 := 0x4000000000000000000000000000000000000000000000000000000000000000

  /**
   * The clamped scalar is 2^254 and the bits 3 to 253 of the hash, a multiple of 8 in [2^254, 2^255); the other half of the
   * hash is kept.
   */
  lemma ClampValue(h: bytes)
    requires |h| == 64
    ensures LeVal(Clamp(h)[..32]) == TWO254 + 8 * (LeVal(h[..32]) / 8 % TWO251)
    ensures LeVal(Clamp(h)[..32]) % 8 == 0 && TWO254 <= LeVal(Clamp(h)[..32]) < TWO255
    ensures Clamp(h)[32..] == h[32..]
  {
    hide LeVal, Pow256, Clamp;
    var e := Clamp(h);
    ClampBytes(h);
    BothEnds(e[..32]);
    BothEnds(h[..32]);
    assert e[..32][1..31] == e[1..31] && h[..32][1..31] == h[1..31];
    ClampWith(h[0], LeVal(h[..32][1..31]), h[31], LeVal(h[..32]), LeVal(e[..32]));
  }

  lemma ClampBytes(h: bytes)
    requires |h| == 64
    ensures Clamp(h)[0] == h[0] - h[0] % 8 && Clamp(h)[31] == h[31] % 64 + 64
    ensures Clamp(h)[1..31] == h[1..31] && Clamp(h)[32..] == h[32..]
  {}

  /** A 32-byte number by its first byte, the middle and its last byte. */
  lemma BothEnds(s: bytes)
    requires |s| == 32
    ensures LeVal(s) == s[0] as int + 256 * LeVal(s[1..31]) + TWO248 * s[31] as int
    ensures 0 <= 256 * LeVal(s[1..31]) <= TWO248 - 256
  {
    hide LeVal, Pow256;
    TopByte(s);
    var t := s[..31];
    assert t == [s[0]] + s[1..31];
    LeValAppend([s[0]], s[1..31]);
    Singleton(s[0]);
    assert Pow256(1) == 256 by { Pow256Step(0); PowNone(); }
    LeValBound(s[1..31]);
    Pow256Of31();
    Pow256Step(30);
  }

  lemma ClampWith(h0: int, mid: int, h31: int, v: int, e: int)
    requires 0 <= h0 < 256 && 0 <= h31 < 256 && 0 <= 256 * mid <= TWO248 - 256
    requires v == h0 + 256 * mid + TWO248 * h31 && e == h0 - h0 % 8 + 256 * mid + TWO248 * (h31 % 64 + 64)
    ensures e == TWO254 + 8 * (v / 8 % TWO251)
    ensures e % 8 == 0 && TWO254 <= e < TWO255
  {
    var low := h0 / 8 + 32 * mid + 0x20000000000000000000000000000000000000000000000000000000000000 * (h31 % 64);
    assert v == 8 * (low + TWO251 * (h31 / 64)) + h0 % 8;
    assert 0 <= low < TWO251;
    EighthIs(v, low + TWO251 * (h31 / 64), h0 % 8);
    Mod251(v / 8, h31 / 64, low);
    assert e == TWO254 + 8 * low;
  }

  lemma EighthIs(v: int, q: int, r: int)
    requires v == 8 * q + r && 0 <= r < 8
    ensures v / 8 == q
  {}

  lemma Mod251(x: int, q: int, r: int)
    requires x == TWO251 * q + r && 0 <= r < TWO251
    ensures x % TWO251 == r
  {}

  lemma PowNone()
    ensures Pow256(0) == 1
  {}

  /** A value below 2^253 leaves the top three bits clear, and conversely. */
  lemma TopBits(s: bytes)
    requires |s| == 32
    ensures s[31] < 32 <==> LeVal(s) < TWO253
  {
    hide LeVal;
    TopByte(s);
  }

  function ExtendedKey(sk: bytes): (e: bytes)
    ensures |e| == 64
  {
    Clamp(Sha512.Hash(sk))
  }

  /** The secret scalar a. */
  function SecretScalar(sk: bytes): nat {
    LeVal(ExtendedKey(sk)[..32])
  }

  /** The nonce r = H(prefix, m). */
  function Nonce(sk: bytes, m: bytes): nat {
    LeVal(Sha512.Hash(ExtendedKey(sk)[32..] + m)) % L
  }

  /** The challenge H(R, A, M), from the first half of the signature. */
  function Challenge(rs: bytes, pk: bytes, m: bytes): nat
    requires |rs| >= 32
  {
    LeVal(Sha512.Hash(rs[..32] + pk + m)) % L
  }

  /** `pk` encodes a B. */
  ghost predicate IsPublicKey(pk: bytes, sk: bytes) {
    Encodes(pk, Mult(SecretScalar(sk) % L, BASE))
  }

  /** `rs` is R = r B followed by S = r + H(R, A, M) a modulo L. */
  ghost predicate IsSignature(rs: bytes, m: bytes, sk: bytes, pk: bytes) {
    |rs| == 64 && Encodes(rs[..32], Mult(Nonce(sk, m), BASE))
    && LeVal(rs[32..]) == (Challenge(rs, pk, m) * SecretScalar(sk) + Nonce(sk, m)) % L
  }

  /** The point the verifier computes, S B + H(R, A, M) (-A), for the decoded negative `a` of the key. */
  ghost function Check(m: bytes, pk: bytes, rs: bytes, a: Point): Point
    requires |rs| == 64
  {
    Plus(Mult(Challenge(rs, pk, m), a), Mult(LeVal(rs[32..]) % L, BASE))
  }

  /** The signatures the verifier accepts. */
  ghost predicate Accepts(m: bytes, pk: bytes, rs: bytes) {
    |rs| == 64 && rs[63] < 32 && exists a :: DecodesNegative(pk, a) && Encodes(rs[..32], Check(m, pk, rs, a))
  }

  // ---- hashing ----

  method Hram(rs: bytes, pk: bytes, m: bytes) returns (hash: bytes)
    requires |rs| >= 32
    ensures hash == Sha512.Hash(rs[..32] + pk + m)
  {
    hide Sha512.Hash, Sha512.Compress;
    var ctx := new Sha512.Hasher();
    ctx.Update(rs[..32]);
    ctx.Update(pk);
    ctx.Update(m);
    assert ctx.msg == rs[..32] + pk + m;
    hash := ctx.Final();
  }

  method NonceHash(prefix: bytes, m: bytes) returns (hash: bytes)
    ensures hash == Sha512.Hash(prefix + m)
  {
    hide Sha512.Hash, Sha512.Compress;
    var ctx := new Sha512.Hasher();
    ctx.Update(prefix);
    ctx.Update(m);
    assert ctx.msg == prefix + m;
    hash := ctx.Final();
  }

  method ExtSk(sk: bytes) returns (e: bytes)
    requires |sk| == 32
    ensures e == ExtendedKey(sk)
  {
    hide Sha512.Hash;
    e := Sha512.HashAll(sk);
    e := e[0 := e[0] / 8 * 8];
    e := e[31 := e[31] % 128];
    e := e[31 := if e[31] / 64 % 2 == 0 then e[31] + 64 else e[31]];
  }

  // ---- the three operations ----

  lemma ScalarRange(s: Scalar)
    requires SVal(s) < L
    ensures SVal(s) < Pow2(255) && SVal(s) < 8 * Pow16(63)
  {
    hide SVal, Pow2, Pow16;
    Pow16Literals();
    Pow2Of255();
  }

  lemma Pow2Of255()
    ensures Pow2(255) == TWO255
  {
    hide Pow2;
    Pow2Of64();
    Sha512.Pow2Of128();
    Pow2Add(64, 63);
    Pow2Add(63, 1);
    Pow2Add(128, 127);
    Pow2Of1();
  }

  method PackPoint(p: Ge, ghost a: Point) returns (b: bytes)
    requires CurveFacts() && Partial(p, a)
    ensures Encodes(b, a)
  {
    hide *;
    PackableZ(p, a);
    b := Pack(p, a);
  }

  lemma PackableZ(p: Ge, a: Point)
    requires CurveFacts() && Partial(p, a)
    ensures Invertible(Val(p.z))
  {
    hide OnCurve, PrimeFacts, NonSquare, Associative, Unit, Cong;
    UnitsInvert(Val(p.z));
  }

  method PackMultiple(base: seq<bytes>, s: Scalar) returns (b: bytes)
    requires CurveFacts() && BaseTable(base) && Limbs(s, 0x20000000) && SVal(s) < L
    ensures Encodes(b, Mult(SVal(s), BASE))
  {
    hide *;
    ScalarRange(s);
    LimbsFit(s);
    var r := ScalarmultBase(base, s);
    PartialOfFull(r, Mult(SVal(s), BASE));
    b := PackPoint(r, Mult(SVal(s), BASE));
  }

  lemma BelowL(n: int)
    ensures 0 <= n % L < L
  {}

  method PublicKey(base: seq<bytes>, sk: bytes) returns (pk: bytes)
    requires CurveFacts() && BaseTable(base) && |sk| == 32
    ensures IsPublicKey(pk, sk)
  {
    hide Encodes, Mult, CurveFacts, BaseTable, ExtendedKey, SVal, LeVal, Limbs;
    var ext := ExtSk(sk);
    BelowL(LeVal(ext[..32]));
    var a := Expand256(ext[..32]);
    pk := PackMultiple(base, a);
  }

  method Sign(base: seq<bytes>, m: bytes, sk: bytes, pk: bytes) returns (rs: bytes)
    requires CurveFacts() && BaseTable(base) && |sk| == 32 && |pk| == 32
    ensures IsSignature(rs, m, sk, pk)
  {
    hide Mult, CurveFacts, BaseTable, ExtendedKey, SVal, LeVal, Sha512.Hash, Sha512.Compress;
    var ext := ExtSk(sk);
    var hashr := NonceHash(ext[32..], m);
    BelowL(LeVal(hashr));
    var r := Expand256(hashr);
    var rb := PackMultiple(base, r);
    var hram := Hram(rb, pk, m);
    var s := Expand256(hram);
    var a := Expand256(ext[..32]);
    s := Mul256(s, a);
    BelowL(LeVal(hram) % L * (LeVal(ext[..32]) % L));
    s := Add256(s, r);
    var sb := Contract256(s);
    ghost var h, x := LeVal(hram) % L, SecretScalar(sk);
    DivideL(x);
    ScaleMultiple(h, x / L, x % L, x);
    AddReduced(Nonce(sk, m), h * (x % L), h * x, h * (x / L));
    SmallModL(Nonce(sk, m));
    rs := rb + sb;
    assert rs[..32] == rb == rb[..32] && rs[32..] == sb;
  }

  method SignOpen(sliding: seq<Niels>, m: bytes, pk: bytes, rs: bytes) returns (ok: bool)
    requires CurveFacts() && SlidingTable(sliding) && |pk| == 32 && |rs| == 64
    ensures ok == Accepts(m, pk, rs)
  {
    hide Mult, Plus, Encodes, CurveFacts, PrimeFacts, SlidingTable, SVal, LeVal, Sha512.Hash, DecodesNegative, HasRoot, Full,
         Partial, Limbs;
    ok := false;
    if rs[63] / 32 != 0 {
      return;
    }
    var good, negA, a := UnpackNegative(pk);
    Facts();
    if !good {
      if Accepts(m, pk, rs) {
        AcceptedDecodes(m, pk, rs);
      }
      return;
    }
    var hash := Hram(rs, pk, m);
    BelowL(LeVal(hash));
    var hram := Expand256(hash);
    BelowL(LeVal(rs[32..]));
    var s := Expand256(rs[32..]);
    ScalarRange(hram);
    ScalarRange(s);
    LimbsFit(hram);
    LimbsFit(s);
    var r := DoubleScalarmult(negA, hram, s, sliding, a);
    var checkR := PackPoint(r, Check(m, pk, rs, a));
    EncodingLength(checkR, Check(m, pk, rs, a));
    var same := Verify(rs[..32], checkR);
    ok := same == 1;
    Decision(m, pk, rs, a, checkR);
  }

  lemma EncodingLength(b: bytes, a: Point)
    requires Encodes(b, a)
    ensures |b| == 32
  {}

  lemma Facts()
    requires CurveFacts()
    ensures PrimeFacts()
  {}

  lemma AcceptedDecodes(m: bytes, pk: bytes, rs: bytes)
    requires Accepts(m, pk, rs)
    ensures HasRoot(pk)
  {
    hide DecodesNegative, HasRoot, Check, Encodes;
    var a :| DecodesNegative(pk, a) && Encodes(rs[..32], Check(m, pk, rs, a));
    DecodedHasRoot(pk, a);
  }

  lemma Decision(m: bytes, pk: bytes, rs: bytes, a: Point, checkR: bytes)
    requires PrimeFacts() && |rs| == 64 && rs[63] < 32 && DecodesNegative(pk, a) && Encodes(checkR, Check(m, pk, rs, a))
    ensures rs[..32] == checkR <==> Accepts(m, pk, rs)
  {
    hide PrimeFacts, DecodesNegative, Check, Encodes;
    if Accepts(m, pk, rs) {
      var c :| DecodesNegative(pk, c) && Encodes(rs[..32], Check(m, pk, rs, c));
      DecodeUnique(pk, a, c);
      EncodingUnique(rs[..32], checkR, Check(m, pk, rs, a));
    }
  }

  // ---- the protocol ----

  /** h (-aB) + (h a + r) B = r B. */
  lemma SignatureEquation(h: int, a: int, r: int)
    requires CurveFacts() && BaseOrder()
    ensures Plus(Mult(h, Minus(Mult(a, BASE))), Mult((h * a + r) % L, BASE)) == Mult(r, BASE)
  {
    hide *;
    BaseOnCurve();
    assert OfOrderL(BASE) by { OrderOfBase(); }
    MultModL(h * a + r, BASE);
    MultNeg(a, BASE);
    MultMul(h, -a, BASE);
    assert h * -a + (h * a + r) == r;
    MultAdd(h * -a, h * a + r, BASE);
  }

  lemma OrderOfBase()
    requires BaseOrder()
    ensures OfOrderL(BASE)
  {}

  lemma OrderOf(a: Point)
    requires OfOrderL(a)
    ensures L > 0 && Mult(L, a) == NEUTRAL
  {
    hide Mult;
  }

  /** Reducing a multiplier modulo L. */
  lemma MultModL(n: int, a: Point)
    requires CurveFacts() && OnCurve(a) && OfOrderL(a)
    ensures Mult(n % L, a) == Mult(n, a)
  {
    hide CurveFacts, OnCurve, Mult, OfOrderL;
    OrderOf(a);
    MultMod(L, n, a);
  }

  /** Every signature made with a key is accepted with its public key, for every message and key. */
  lemma SignedIsAccepted(m: bytes, sk: bytes, pk: bytes, rs: bytes)
    requires CurveFacts() && BaseOrder() && IsPublicKey(pk, sk) && IsSignature(rs, m, sk, pk)
    ensures Accepts(m, pk, rs)
  {
    hide CurveFacts, BaseOrder, OfOrderL, Mult, Plus, Minus, OnCurve, LeVal, Sha512.Hash, ExtendedKey, Encodes, DecodesNegative,
         HasRoot;
    var a, h, r := SecretScalar(sk), Challenge(rs, pk, m), Nonce(sk, m);
    BaseOnCurve();
    OrderOfBase();
    MultModL(a, BASE);
    MultOnCurve(a, BASE);
    var c := Minus(Mult(a, BASE));
    DecodesMinus(pk, Mult(a, BASE));
    BelowL(h * a + r);
    SmallModL(LeVal(rs[32..]));
    SignatureEquation(h, a, r);
    TopBits(rs[32..]);
    assert Check(m, pk, rs, c) == Mult(r, BASE);
  }

  lemma SmallModL(n: nat)
    requires n < L
    ensures n % L == n && n < TWO253
  {}

  lemma DecodesMinus(pk: bytes, a: Point)
    requires OnCurve(a) && Encodes(pk, a)
    ensures DecodesNegative(pk, Minus(a))
  {
    hide Eqn, LeVal, Cong, Residue;
    MinusOnCurve(a);
    ResidueIsMod(-a.x);
    EncodingHasRoot(pk, a);
    SmallMod(a.y);
    NegativeMod(a.x);
    OddDifference(a.x);
  }

  /** Key, signature and check, end to end. */
  method SignThenOpen(base: seq<bytes>, sliding: seq<Niels>, m: bytes, sk: bytes) returns (pk: bytes, rs: bytes, ok: bool)
    requires CurveFacts() && BaseOrder() && BaseTable(base) && SlidingTable(sliding) && |sk| == 32
    ensures IsPublicKey(pk, sk) && IsSignature(rs, m, sk, pk) && ok
  {
    hide CurveFacts, BaseOrder, BaseTable, SlidingTable, Accepts, Mult, SecretScalar, Nonce, LeVal, Challenge;
    pk := PublicKey(base, sk);
    rs := Sign(base, m, sk, pk);
    SignedIsAccepted(m, sk, pk, rs);
    ok := SignOpen(sliding, m, pk, rs);
  }

  /** The public key encodes a B, for a = 2^254 and the bits 3 to 253 of the hash of the secret key. */
  lemma KeyEquation(pk: bytes, sk: bytes)
    requires CurveFacts() && BaseOrder()
    ensures IsPublicKey(pk, sk) <==> Encodes(pk, Mult(TWO254 + 8 * (LeVal(Sha512.Hash(sk)[..32]) / 8 % TWO251), BASE))
  {
    hide CurveFacts, BaseOrder, OfOrderL, Mult, LeVal, Sha512.Hash, Clamp, Encodes;
    ClampValue(Sha512.Hash(sk));
    BaseOnCurve();
    OrderOfBase();
    MultModL(SecretScalar(sk), BASE);
  }

  /**
   * A signature is R = r B and S = r + h a, for r the hash of the second half of the hash of the secret key and the message,
   * h the hash of R, the public key and the message, and a as for the key.
   */
  lemma SignatureIs(rs: bytes, m: bytes, sk: bytes, pk: bytes)
    requires CurveFacts() && BaseOrder() && |rs| == 64
    ensures IsSignature(rs, m, sk, pk) <==>
            var r := LeVal(Sha512.Hash(Sha512.Hash(sk)[32..] + m));
            var h := LeVal(Sha512.Hash(rs[..32] + pk + m));
            var a := TWO254 + 8 * (LeVal(Sha512.Hash(sk)[..32]) / 8 % TWO251);
            Encodes(rs[..32], Mult(r, BASE)) && LeVal(rs[32..]) == (r + h * a) % L
  {
    hide CurveFacts, BaseOrder, OfOrderL, Mult, LeVal, Sha512.Hash, Clamp, Encodes;
    ClampValue(Sha512.Hash(sk));
    BaseOnCurve();
    OrderOfBase();
    var r := LeVal(Sha512.Hash(Sha512.Hash(sk)[32..] + m));
    var h := LeVal(Sha512.Hash(rs[..32] + pk + m));
    MultModL(r, BASE);
    ReducedSum(r, h, SecretScalar(sk));
  }

  lemma ReducedSum(r: int, h: int, a: int)
    ensures (h % L * a + r % L) % L == (r + h * a) % L
  {
    DivideL(h);
    DivideL(r);
    ScaleMultiple(a, h / L, h % L, h);
    SameResidue(h % L * a + r % L, r + h * a, a * (h / L) + r / L);
  }

  lemma SameResidue(x: int, y: int, k: int)
    requires y == x + L * k
    ensures x % L == y % L
  {
    DivideL(x);
    DivideL(y);
  }

  /** Keys and signatures are determined by their inputs. */
  lemma SignatureUnique(m: bytes, sk: bytes, pk: bytes, rs: bytes, qs: bytes)
    requires IsSignature(rs, m, sk, pk) && IsSignature(qs, m, sk, pk)
    ensures rs == qs
  {
    hide Mult, SecretScalar, Nonce, LeVal, Encodes, Sha512.Hash;
    EncodingUnique(rs[..32], qs[..32], Mult(Nonce(sk, m), BASE));
    LeValInjective(rs[32..], qs[32..]);
    assert rs == rs[..32] + rs[32..] && qs == qs[..32] + qs[32..];
  }

  /**
   * Acceptance is the equation S B = R + H(R, A, M) A, for a point A that the key encodes and a point R that the signature
   * starts with, together with the test on the top byte of S.
   */
  lemma VerificationEquation(m: bytes, pk: bytes, rs: bytes)
    requires CurveFacts() && BaseOrder() && |rs| == 64 && |pk| == 32
    ensures Accepts(m, pk, rs) <==>
            rs[63] < 32
            && exists a, r ::
                 && OnCurve(a) && DecodesNegative(pk, Minus(a)) && OnCurve(r) && Encodes(rs[..32], r)
                 && Mult(LeVal(rs[32..]), BASE) == Plus(r, Mult(LeVal(Sha512.Hash(rs[..32] + pk + m)) % L, a))
  {
    hide CurveFacts, BaseOrder, Mult, Plus, Minus, OnCurve, LeVal, Sha512.Hash, Encodes, DecodesNegative;
    if Accepts(m, pk, rs) {
      var c :| DecodesNegative(pk, c) && Encodes(rs[..32], Check(m, pk, rs, c));
      assert OnCurve(c) by { DecodedOnCurve(pk, c); }
      MinusMinus(c);
      CheckEquation(m, pk, rs, Minus(c), Check(m, pk, rs, c));
    }
    if a, r :| OnCurve(a) && DecodesNegative(pk, Minus(a)) && OnCurve(r) && Encodes(rs[..32], r)
               && Mult(LeVal(rs[32..]), BASE) == Plus(r, Mult(LeVal(Sha512.Hash(rs[..32] + pk + m)) % L, a)) {
      CheckEquation(m, pk, rs, a, r);
    }
  }

  lemma CheckEquation(m: bytes, pk: bytes, rs: bytes, a: Point, r: Point)
    requires CurveFacts() && BaseOrder() && |rs| == 64 && |pk| == 32 && OnCurve(a)
    ensures OnCurve(Check(m, pk, rs, Minus(a)))
    ensures OnCurve(r) ==> (Check(m, pk, rs, Minus(a)) == r
                            <==> Mult(LeVal(rs[32..]), BASE) == Plus(r, Mult(Challenge(rs, pk, m), a)))
  {
    hide CurveFacts, BaseOrder, OfOrderL, Mult, Plus, Minus, OnCurve, LeVal, Challenge;
    var h, s := Challenge(rs, pk, m), LeVal(rs[32..]);
    BaseOnCurve();
    OrderOfBase();
    MultModL(s, BASE);
    MultOnCurve(s, BASE);
    MultOnCurve(h, a);
    MinusTimes(h, a);
    AlwaysAddable(Mult(h, a), Mult(h, a));
    AlwaysAddable(Minus(Mult(h, a)), Mult(s, BASE));
    if OnCurve(r) {
      Transpose(Mult(h, a), Mult(s, BASE), r);
    }
  }

  lemma MinusTimes(h: int, a: Point)
    requires CurveFacts() && OnCurve(a)
    ensures Mult(h, Minus(a)) == Minus(Mult(h, a))
  {
    hide *;
    MultZeroOne(a);
    MultNeg(1, a);
    MultMul(h, -1, a);
    assert h * -1 == -h;
    MultNeg(h, a);
  }

  lemma Transpose(x: Point, y: Point, r: Point)
    requires CurveFacts() && OnCurve(x) && OnCurve(y) && OnCurve(r)
    ensures Plus(Minus(x), y) == r <==> y == Plus(r, x)
  {
    hide *;
    AlwaysAddable(x, y);
    PlusOpposite(x);
    assert Plus(Plus(Minus(x), y), x) == y by {
      PlusAssoc(Minus(x), y, x);
      PlusAssoc(y, Minus(x), x);
      PlusAssoc(y, x, x);
      PlusNeutral(y);
    }
    assert Plus(Minus(x), Plus(r, x)) == r by {
      PlusAssoc(r, x, Minus(x));
      PlusAssoc(Plus(r, x), Minus(x), x);
      PlusNeutral(r);
    }
  }

  lemma PlusOpposite(x: Point)
    requires CurveFacts() && OnCurve(x)
    ensures OnCurve(Minus(x)) && Plus(x, Minus(x)) == NEUTRAL && Plus(Minus(x), x) == NEUTRAL
  {
    hide *;
    MinusOnCurve(x);
    MultZeroOne(x);
    MultNeg(1, x);
    MultAdd(1, -1, x);
    MultAdd(-1, 1, x);
  }

  /** Exactly the multiples of L annihilate the base point. */
  ghost predicate ExactOrder() {
    forall n :: Mult(n, BASE) == NEUTRAL <==> n % L == 0
  }

  lemma NoMultiple(n: int)
    requires CurveFacts() && ExactOrder() && 0 <= n < L && Mult(n, BASE) == NEUTRAL
    ensures n == 0
  {
    hide Mult, CurveFacts;
  }

  lemma EqualMultiples(s: int, t: int)
    requires CurveFacts() && ExactOrder() && 0 <= s <= t < L && Mult(s, BASE) == Mult(t, BASE)
    ensures s == t
  {
    hide *;
    BaseOnCurve();
    MultNeg(s, BASE);
    MultAdd(t, -s, BASE);
    MultOnCurve(s, BASE);
    PlusOpposite(Mult(s, BASE));
    assert t + -s == t - s;
    NoMultiple(t - s);
  }

  lemma CancelLeft(x: Point, y: Point, z: Point)
    requires CurveFacts() && OnCurve(x) && OnCurve(y) && OnCurve(z) && Plus(x, y) == Plus(x, z)
    ensures y == z
  {
    hide *;
    AlwaysAddable(x, y);
    PlusAssoc(x, y, y);
    PlusAssoc(x, z, z);
    MinusMinus(x);
    Transpose(Minus(x), y, Plus(x, y));
    Transpose(Minus(x), z, Plus(x, y));
  }

  lemma MinusMinus(x: Point)
    requires CurveFacts() && OnCurve(x)
    ensures OnCurve(Minus(x)) && Minus(Minus(x)) == x
  {
    hide *;
    MinusOnCurve(x);
    MultZeroOne(x);
    MultNeg(1, x);
    MultNeg(-1, x);
  }

  /** For a given R, key and message, the accepted S are one class modulo L, cut off at 2^253. */
  lemma AcceptedScalars(m: bytes, pk: bytes, rs: bytes, qs: bytes)
    requires CurveFacts() && ExactOrder() && Accepts(m, pk, rs) && |qs| == 64 && qs[..32] == rs[..32]
    ensures Accepts(m, pk, qs) <==> qs[63] < 32 && LeVal(qs[32..]) % L == LeVal(rs[32..]) % L
  {
    hide CurveFacts, ExactOrder, Encodes, DecodesNegative, Mult, Plus, LeVal, Sha512.Hash;
    var a :| DecodesNegative(pk, a) && Encodes(rs[..32], Check(m, pk, rs, a));
    assert Challenge(qs, pk, m) == Challenge(rs, pk, m);
    if Accepts(m, pk, qs) {
      var c :| DecodesNegative(pk, c) && Encodes(qs[..32], Check(m, pk, qs, c));
      Facts();
      DecodeUnique(pk, a, c);
      SameScalar(rs[..32], Challenge(rs, pk, m), LeVal(rs[32..]) % L, LeVal(qs[32..]) % L, pk, a);
    }
  }

  /** The signature with the number `s` in place of its own S. */
  function WithS(rs: bytes, s: nat): (qs: bytes)
    requires |rs| == 64
    ensures |qs| == 64 && qs[..32] == rs[..32]
  {
    rs[..32] + LeBytes(s, 32)
  }

  lemma ValueOfS(rs: bytes, s: nat)
    requires |rs| == 64 && s < TWO256
    ensures LeVal(WithS(rs, s)[32..]) == s && (WithS(rs, s)[63] < 32 <==> s < TWO253)
  {
    hide LeVal, Pow256, LeBytes;
    var b := LeBytes(s, 32);
    assert WithS(rs, s)[32..] == b && WithS(rs, s)[63] == b[31];
    Pow256Of32();
    LeBytesValue(s, 32);
    TopBits(b);
  }

  /** Of the forms of an accepted signature whose S agree modulo L, exactly those with S below 2^253 are accepted. */
  lemma AcceptedForms(m: bytes, pk: bytes, rs: bytes, s: nat)
    requires Accepts(m, pk, rs) && s < TWO256 && s % L == LeVal(rs[32..]) % L
    ensures Accepts(m, pk, WithS(rs, s)) <==> s < TWO253
  {
    hide Encodes, DecodesNegative, Mult, Plus, LeVal, Sha512.Hash, WithS;
    ValueOfS(rs, s);
    var a :| DecodesNegative(pk, a) && Encodes(rs[..32], Check(m, pk, rs, a));
    assert Check(m, pk, WithS(rs, s), a) == Check(m, pk, rs, a);
  }

  /** Every accepted signature whose S leaves room for it has a second form that is accepted, with S + L. */
  lemma SecondForm(m: bytes, pk: bytes, rs: bytes)
    requires Accepts(m, pk, rs) && LeVal(rs[32..]) + L < TWO253
    ensures var qs := WithS(rs, LeVal(rs[32..]) + L); Accepts(m, pk, qs) && qs != rs
  {
    hide Check, Encodes, DecodesNegative, LeVal, WithS;
    var s := LeVal(rs[32..]);
    AddL(s);
    AcceptedForms(m, pk, rs, s + L);
    ValueOfS(rs, s + L);
  }

  lemma AddL(s: int)
    ensures (s + L) % L == s % L
  {}

  lemma SameScalar(b: bytes, h: int, s: int, t: int, pk: bytes, a: Point)
    requires CurveFacts() && ExactOrder() && 0 <= s < L && 0 <= t < L && DecodesNegative(pk, a)
    requires Encodes(b, Plus(Mult(h, a), Mult(s, BASE))) && Encodes(b, Plus(Mult(h, a), Mult(t, BASE)))
    ensures s == t
  {
    hide *;
    assert OnCurve(a) by { DecodedOnCurve(pk, a); }
    BaseOnCurve();
    MultOnCurve(h, a);
    MultOnCurve(s, BASE);
    MultOnCurve(t, BASE);
    AlwaysAddable(Mult(h, a), Mult(s, BASE));
    AlwaysAddable(Mult(h, a), Mult(t, BASE));
    Facts();
    EncodingInjective(b, Plus(Mult(h, a), Mult(s, BASE)), Plus(Mult(h, a), Mult(t, BASE)));
    CancelLeft(Mult(h, a), Mult(s, BASE), Mult(t, BASE));
    if s <= t {
      EqualMultiples(s, t);
    } else {
      EqualMultiples(t, s);
    }
  }

  lemma DecodedOnCurve(pk: bytes, a: Point)
    requires DecodesNegative(pk, a)
    ensures OnCurve(a)
  {}
}
